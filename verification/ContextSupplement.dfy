/** The printed form of a generation's parent context and its parser (tools/atlas_agent/journal.py,
    `encode_context_supplement`, `decode_context_supplement`). */
module ContextSupplement {
  import opened Decimals
  import opened Ordering

  datatype Form =
    | NoParent
    | Checkpoint(generation: int, action: string, status: string, commit: Option<string>)
    | Execution(generation: int, action: string, status: string, executionId: Option<string>, threadId: Option<string>,
                reportAvailable: bool)

  const HEADER := "Atlas-generated context supplement\n\nPrevious generation artifacts:\n"

  // ---------------------------------------------------------------- printing

  /** A list item of one key and one value. */
  type Field = (string, string)

  function Item(f: Field): string
  {
    "- " + (f.0 + ": " + f.1)
  }

  function Integer(n: int): string
  {
    if n < 0 then "-" + Decimal(-n) else Decimal(n)
  }

  /** An entry that is left out when it is missing or empty. */
  function Optional(key: string, value: Option<string>): seq<Field>
  {
    if value.Some? && value.value != "" then [(key, value.value)] else []
  }

  function ReportCommand(generation: string): string
  {
    "python -m tools.atlas_agent report " + generation
  }

  function FieldsOf(form: Form): seq<Field>
    requires !form.NoParent?
  {
    [("generation", Integer(form.generation)), ("action", form.action), ("status", form.status)]
    + match form
      case Checkpoint(_, _, _, commit) => Optional("commit", commit)
      case Execution(generation, _, _, executionId, threadId, available) =>
        Optional("execution_id", executionId) + Optional("thread_id", threadId)
        + [("report", if available then "available" else "unavailable")]
        + if available then [("report command", ReportCommand(Integer(generation)))] else []
  }

  /** Each item on its own line. */
  function Print(fields: seq<Field>): string
  {
    if fields == [] then "" else Item(fields[0]) + ("\n" + Print(fields[1..]))
  }

  /** `encode_context_supplement`. */
  function Encode(form: Form): string
  {
    if form.NoParent? then HEADER + "- unavailable: no immediate parent artifact\n" else HEADER + Print(FieldsOf(form))
  }

  /** One printed line. */
  function Line(key: string, value: string): string
  {
    "- " + key + ": " + value + "\n"
  }

  lemma Regroup(a: string, b: string, c: string)
    ensures a + (b + c) == (a + b) + c
  {
  }

  lemma PrintOne(f: Field, rest: seq<Field>)
    ensures Print([f] + rest) == Line(f.0, f.1) + Print(rest)
  {
    assert ([f] + rest)[1..] == rest && ([f] + rest)[0] == f;
    Regroup(Item(f), "\n", Print(rest));
    Regroup("- ", f.0, ": " + f.1);
    Regroup(f.0, ": ", f.1);
    assert Item(f) + "\n" == Line(f.0, f.1);
  }

  lemma {:induction false} PrintJoins(a: seq<Field>, b: seq<Field>)
    ensures Print(a + b) == Print(a) + Print(b)
  {
    if a == [] {
      assert a + b == b && "" + Print(b) == Print(b);
    } else {
      var tail := a[1..];
      PrintJoins(tail, b);
      assert a == [a[0]] + tail && a + b == [a[0]] + (tail + b);
      PrintOne(a[0], tail + b);
      PrintOne(a[0], tail);
      Regroup(Line(a[0].0, a[0].1), Print(tail), Print(b));
    }
  }

  /** A line for a value that is there and not empty. */
  function OptionalLine(key: string, value: Option<string>): string
  {
    if value.Some? && value.value != "" then Line(key, value.value) else ""
  }

  /** What follows the three common lines. */
  function Details(form: Form): string
    requires !form.NoParent?
  {
    match form
    case Checkpoint(_, _, _, commit) => OptionalLine("commit", commit)
    case Execution(generation, _, _, executionId, threadId, available) =>
      OptionalLine("execution_id", executionId) + OptionalLine("thread_id", threadId)
      + if available then Line("report", "available") + Line("report command", "python -m tools.atlas_agent report " + Integer(generation))
        else Line("report", "unavailable")
  }

  lemma OptionalPrinted(key: string, value: Option<string>)
    ensures Print(Optional(key, value)) == OptionalLine(key, value)
  {
    if value.Some? && value.value != "" {
      PrintOne((key, value.value), []);
      assert [(key, value.value)] + [] == [(key, value.value)] && Line(key, value.value) + "" == Line(key, value.value);
    }
  }

  lemma LinePrinted(key: string, value: string)
    ensures Print([(key, value)]) == Line(key, value)
  {
    PrintOne((key, value), []);
    assert [(key, value)] + [] == [(key, value)] && Line(key, value) + "" == Line(key, value);
  }

  lemma ReportPrinted(generation: int, available: bool)
    ensures Print([("report", if available then "available" else "unavailable")]
                  + if available then [("report command", ReportCommand(Integer(generation)))] else [])
         == if available then Line("report", "available") + Line("report command", "python -m tools.atlas_agent report " + Integer(generation))
            else Line("report", "unavailable")
  {
    if available {
      PrintOne(("report", "available"), [("report command", ReportCommand(Integer(generation)))]);
      LinePrinted("report command", ReportCommand(Integer(generation)));
    } else {
      LinePrinted("report", "unavailable");
      assert [("report", "unavailable")] + [] == [("report", "unavailable")];
    }
  }

  lemma DetailsPrinted(form: Form)
    requires !form.NoParent?
    ensures Print(FieldsOf(form)[3..]) == Details(form)
  {
    match form {
      case Checkpoint(_, _, _, commit) =>
        OptionalPrinted("commit", commit);
        assert FieldsOf(form)[3..] == Optional("commit", commit);
      case Execution(generation, _, _, executionId, threadId, available) =>
        var report := [("report", if available then "available" else "unavailable")]
                      + if available then [("report command", ReportCommand(Integer(generation)))] else [];
        var ids := Optional("execution_id", executionId) + Optional("thread_id", threadId);
        assert FieldsOf(form)[3..] == ids + report;
        PrintJoins(ids, report);
        PrintJoins(Optional("execution_id", executionId), Optional("thread_id", threadId));
        OptionalPrinted("execution_id", executionId);
        OptionalPrinted("thread_id", threadId);
        ReportPrinted(generation, available);
    }
  }

  /** The printed text, line by line. */
  lemma PrintedText(form: Form)
    ensures form.NoParent? ==> Encode(form) == HEADER + "- unavailable: no immediate parent artifact\n"
    ensures !form.NoParent? ==>
              Encode(form)
              == HEADER + (Line("generation", Integer(form.generation)) + (Line("action", form.action) + (Line("status", form.status) + Details(form))))
  {
    if !form.NoParent? {
      var fields := FieldsOf(form);
      DetailsPrinted(form);
      assert fields == [fields[0]] + ([fields[1]] + ([fields[2]] + fields[3..]));
      PrintOne(fields[2], fields[3..]);
      PrintOne(fields[1], [fields[2]] + fields[3..]);
      PrintOne(fields[0], [fields[1]] + ([fields[2]] + fields[3..]));
    }
  }

  // ---------------------------------------------------------------- parsing

  /** The characters at which `splitlines` ends a line. */
  predicate EndsLine(c: char)
  {
    c in {'\n', '\r', '\U{0B}', '\U{0C}', '\U{1C}', '\U{1D}', '\U{1E}', '\U{85}', '\U{2028}', '\U{2029}'}
  }

  /** `splitlines`: a final line end opens no further line. */
  function SplitLines(text: string): seq<string>
  {
    if text == "" then []
    else if EndsLine(text[0]) then
      [""] + SplitLines(if |text| >= 2 && text[0] == '\r' && text[1] == '\n' then text[2..] else text[1..])
    else
      var rest := SplitLines(text[1..]);
      if rest == [] then [[text[0]]] else [[text[0]] + rest[0]] + rest[1..]
  }

  /** The position of the first separator, if any. */
  function Separator(s: string): Option<nat>
  {
    if |s| < 2 then None
    else if s[0] == ':' && s[1] == ' ' then Some(0)
    else
      match Separator(s[1..])
      case None => None
      case Some(n) => Some(n + 1)
  }

  /** `split(": ", 1)` of a line without its bullet. */
  function SplitField(s: string): Option<Field>
  {
    match Separator(s)
    case None => None
    case Some(n) => if n + 2 <= |s| then Some((s[..n], s[n + 2..])) else None
  }

  predicate Bulleted(line: string)
  {
    |line| >= 2 && line[0] == '-' && line[1] == ' '
  }

  /** The dictionary of the fields; a later line replaces an earlier one, a line without separator is ignored. */
  function Dictionary(lines: seq<string>): map<string, string>
    requires forall line :: line in lines ==> Bulleted(line)
  {
    if lines == [] then map[]
    else
      var last := lines[|lines| - 1];
      assert last in lines && Bulleted(last);
      assert forall line :: line in lines[..|lines| - 1] ==> line in lines;
      var earlier := Dictionary(lines[..|lines| - 1]);
      match SplitField(last[2..])
      case None => earlier
      case Some(f) => earlier[f.0 := f.1]
  }

  predicate IsDigit(c: char)
  {
    '0' <= c <= '9'
  }

  function DigitsValue(s: string): Option<nat>
  {
    if s == "" || !IsDigit(s[|s| - 1]) then None
    else
      var last := (s[|s| - 1] - '0') as nat;
      if |s| == 1 then Some(last)
      else
        var head := if s[|s| - 2] == '_' then s[..|s| - 2] else s[..|s| - 1];
        match DigitsValue(head)
        case None => None
        case Some(n) => Some(10 * n + last)
  }

  predicate IsBlank(c: char)
  {
    c == ' ' || c == '\t' || EndsLine(c)
  }

  function Trim(s: string): string
  {
    if s != "" && IsBlank(s[0]) then Trim(s[1..])
    else if s != "" && IsBlank(s[|s| - 1]) then Trim(s[..|s| - 1])
    else s
  }

  /** `int` of a text: blanks around, a sign, digits that single underscores may separate. */
  function ParseInteger(text: string): Option<int>
  {
    var s := Trim(text);
    var digits := if s != "" && (s[0] == '-' || s[0] == '+') then DigitsValue(s[1..]) else DigitsValue(s);
    if digits.None? then None
    else
      var n: int := digits.value;
      Some(if s != "" && s[0] == '-' then -n else n)
  }

  predicate Alphanumeric(c: char)
  {
    'A' <= c <= 'Z' || 'a' <= c <= 'z' || IsDigit(c)
  }

  /** The pattern of a context value. */
  predicate ContextLine(s: string)
  {
    && 1 <= |s| <= 256 && Alphanumeric(s[0])
    && forall i :: 1 <= i < |s| ==> Alphanumeric(s[i]) || s[i] in {'.', '_', ':', '-'}
  }

  predicate CommitName(s: string)
  {
    40 <= |s| <= 64 && forall i :: 0 <= i < |s| ==> IsDigit(s[i]) || 'a' <= s[i] <= 'f'
  }

  function Lookup(fields: map<string, string>, key: string): Option<string>
  {
    if key in fields then Some(fields[key]) else None
  }

  const KNOWN := {"generation", "action", "status", "commit", "execution_id", "thread_id", "report", "report command"}

  /** What both kinds of form demand of the fields. */
  predicate FieldsFit(fields: map<string, string>, lines: seq<string>)
    requires lines != [] && Bulleted(lines[0])
  {
    && fields.Keys <= KNOWN
    && SplitField(lines[0][2..]).Some? && "generation" in fields && fields["generation"] == SplitField(lines[0][2..]).value.1
    && ParseInteger(fields["generation"]).Some? && ParseInteger(fields["generation"]).value > 0
    && "action" in fields && ContextLine(fields["action"]) && "status" in fields && ContextLine(fields["status"])
  }

  predicate CheckpointFits(fields: map<string, string>)
  {
    fields.Keys <= {"generation", "action", "status", "commit"} && ("commit" in fields ==> CommitName(fields["commit"]))
  }

  predicate ExecutionFits(fields: map<string, string>)
    requires "generation" in fields && ParseInteger(fields["generation"]).Some?
  {
    && "commit" !in fields && "report" in fields && fields["report"] in {"available", "unavailable"}
    && ("report command" in fields ==>
          fields["report"] == "available"
          && fields["report command"] == ReportCommand(Integer(ParseInteger(fields["generation"]).value)))
    && ("execution_id" in fields ==> ContextLine(fields["execution_id"]))
    && ("thread_id" in fields ==> ContextLine(fields["thread_id"]))
  }

  /** `decode_context_supplement`; nothing when it raises. */
  function Decode(value: string): Option<Form>
  {
    if value == Encode(NoParent) then Some(NoParent)
    else if !(HEADER <= value) then None
    else
      var lines := SplitLines(value[|HEADER|..]);
      if |lines| < 3 || exists line :: line in lines && !Bulleted(line) then None
      else
        assert lines[0] in lines;
        var fields := Dictionary(lines);
        if !FieldsFit(fields, lines) then None
        else
          var generation := ParseInteger(fields["generation"]).value;
          if fields["action"] == "checkpoint" then
            if CheckpointFits(fields) then Some(Checkpoint(generation, "checkpoint", fields["status"], Lookup(fields, "commit"))) else None
          else if !ExecutionFits(fields) then None
          else
            var form := Execution(generation, fields["action"], fields["status"], Lookup(fields, "execution_id"),
                                  Lookup(fields, "thread_id"), fields["report"] == "available");
            if Encode(form) == value then Some(form) else None
  }

  /** The length of the text in UTF-8. */
  function Utf8Size(text: string): nat
  {
    if text == "" then 0
    else
      var c := text[0] as int;
      (if c < 0x80 then 1 else if c < 0x800 then 2 else if c < 0x10000 then 3 else 4) + Utf8Size(text[1..])
  }

  /** The form speaks of the generation before; the first generation has no parent. */
  predicate SpeaksOfParent(form: Form, generation: int)
  {
    match form
    case NoParent => generation == 1
    case Checkpoint(parent, _, _, _) => parent == generation - 1
    case Execution(parent, action, _, _, _, _) => parent == generation - 1 && action != "checkpoint"
  }

  /** The re-check of `_validate_payload`: the supplement is short enough, is the encoding of the form it
      decodes to, and speaks of the parent of its generation. */
  predicate Accepted(value: string, generation: int)
  {
    && Utf8Size(value) <= 4096
    && Decode(value).Some? && Encode(Decode(value).value) == value
    && SpeaksOfParent(Decode(value).value, generation)
  }

  // ---------------------------------------------------------------- well-formed forms

  predicate Wellformed(form: Form)
  {
    match form
    case NoParent => true
    case Checkpoint(generation, action, status, commit) =>
      0 < generation && action == "checkpoint" && ContextLine(status) && (commit.Some? ==> CommitName(commit.value))
    case Execution(generation, action, status, executionId, threadId, _) =>
      && 0 < generation && ContextLine(action) && action != "checkpoint" && ContextLine(status)
      && (executionId.Some? ==> ContextLine(executionId.value)) && (threadId.Some? ==> ContextLine(threadId.value))
  }

  lemma DecodedIsWellformed(value: string)
    requires Decode(value).Some?
    ensures Wellformed(Decode(value).value)
  {
  }

  // ---------------------------------------------------------------- lines

  predicate OneLine(s: string)
  {
    s != "" && forall i :: 0 <= i < |s| ==> !EndsLine(s[i])
  }

  lemma {:induction false} SplitOneLine(line: string, rest: string)
    requires OneLine(line)
    ensures SplitLines(line + ("\n" + rest)) == [line] + SplitLines(rest)
    decreases |line|
  {
    var text := line + ("\n" + rest);
    var tail := text[1..];
    assert text[0] == line[0];
    if |line| == 1 {
      assert tail == "\n" + rest && tail[1..] == rest;
      assert SplitLines(tail) == [""] + SplitLines(rest);
      assert [text[0]] + "" == line;
    } else {
      assert OneLine(line[1..]) && tail == line[1..] + ("\n" + rest);
      SplitOneLine(line[1..], rest);
      assert text[1] == line[1];
      assert line == [line[0]] + line[1..];
    }
  }

  function Items(fields: seq<Field>): seq<string>
  {
    if fields == [] then [] else [Item(fields[0])] + Items(fields[1..])
  }

  lemma {:induction false} PrintSplits(fields: seq<Field>)
    requires forall f :: f in fields ==> OneLine(Item(f))
    ensures SplitLines(Print(fields)) == Items(fields)
  {
    if fields != [] {
      assert fields[0] in fields && forall f :: f in fields[1..] ==> f in fields;
      SplitOneLine(Item(fields[0]), Print(fields[1..]));
      PrintSplits(fields[1..]);
    }
  }

  lemma {:induction false} SeparatorAfterKey(key: string, value: string)
    requires ':' !in key
    ensures Separator(key + ": " + value) == Some(|key|)
  {
    var s := key + ": " + value;
    if key != "" {
      assert s[0] == key[0] && s[1..] == key[1..] + ": " + value;
      SeparatorAfterKey(key[1..], value);
    }
  }

  lemma ItemFields(f: Field)
    requires ':' !in f.0
    ensures Bulleted(Item(f)) && SplitField(Item(f)[2..]) == Some(f)
  {
    var s := f.0 + ": " + f.1;
    assert Item(f)[2..] == s;
    SeparatorAfterKey(f.0, f.1);
    assert s[..|f.0|] == f.0 && s[|f.0| + 2..] == f.1;
  }

  /** A list of fields as a dictionary. */
  function AsMap(fields: seq<Field>): map<string, string>
  {
    if fields == [] then map[] else AsMap(fields[..|fields| - 1])[fields[|fields| - 1].0 := fields[|fields| - 1].1]
  }

  lemma {:induction false} ItemsAppend(fields: seq<Field>, f: Field)
    ensures Items(fields + [f]) == Items(fields) + [Item(f)]
  {
    if fields == [] {
      assert fields + [f] == [f];
    } else {
      assert (fields + [f])[0] == fields[0] && (fields + [f])[1..] == fields[1..] + [f];
      ItemsAppend(fields[1..], f);
    }
  }

  lemma {:induction false} ItemsDictionary(fields: seq<Field>)
    requires forall f :: f in fields ==> ':' !in f.0
    ensures forall line :: line in Items(fields) ==> Bulleted(line)
    ensures Dictionary(Items(fields)) == AsMap(fields)
    decreases |fields|
  {
    if fields != [] {
      var init, last := fields[..|fields| - 1], fields[|fields| - 1];
      assert fields == init + [last];
      ItemsAppend(init, last);
      ItemsDictionary(init);
      ItemFields(last);
      assert Items(fields)[..|Items(fields)| - 1] == Items(init);
    }
  }

  // ---------------------------------------------------------------- numbers

  lemma {:induction false} DecimalDigits(n: nat)
    ensures Decimal(n) != "" && forall i :: 0 <= i < |Decimal(n)| ==> IsDigit(Decimal(n)[i])
    ensures DigitsValue(Decimal(n)) == Some(n)
  {
    if n >= 10 {
      DecimalDigits(n / 10);
      var s := Decimal(n);
      assert s[..|s| - 1] == Decimal(n / 10);
      assert s[|s| - 2] == Decimal(n / 10)[|Decimal(n / 10)| - 1];
    }
  }

  lemma IntegerParses(n: int)
    requires 0 < n
    ensures ParseInteger(Integer(n)) == Some(n)
  {
    DecimalDigits(n);
  }

  // ---------------------------------------------------------------- the round trip

  lemma ValuesAreOneLine(s: string)
    requires ContextLine(s) || CommitName(s)
    ensures OneLine(s)
  {
  }

  lemma ItemIsOneLine(f: Field)
    requires OneLine(f.0) && OneLine(f.1)
    ensures OneLine(Item(f))
  {
  }

  predicate Simple(f: Field)
  {
    OneLine(f.0) && OneLine(f.1) && ':' !in f.0
  }

  lemma PrintedFields(fields: seq<Field>)
    requires forall f :: f in fields ==> Simple(f)
    ensures SplitLines(Print(fields)) == Items(fields)
    ensures forall line :: line in Items(fields) ==> Bulleted(line)
    ensures Dictionary(Items(fields)) == AsMap(fields)
  {
    forall f | f in fields ensures OneLine(Item(f)) {
      ItemIsOneLine(f);
    }
    PrintSplits(fields);
    ItemsDictionary(fields);
  }

  lemma {:induction false} ItemsCount(fields: seq<Field>)
    ensures |Items(fields)| == |fields|
    ensures fields != [] ==> Items(fields)[0] == Item(fields[0])
  {
    if fields != [] {
      ItemsCount(fields[1..]);
    }
  }

  lemma {:induction false} AsMapConcat(a: seq<Field>, b: seq<Field>)
    ensures AsMap(a + b) == AsMap(a) + AsMap(b)
    decreases |b|
  {
    if b == [] {
      assert a + b == a;
    } else {
      AsMapConcat(a, b[..|b| - 1]);
      assert (a + b)[..|a + b| - 1] == a + b[..|b| - 1];
    }
  }

  lemma AsMapOne(f: Field)
    ensures AsMap([f]) == map[f.0 := f.1]
  {
    assert [f][..0] == [];
  }

  lemma AsMapOptional(key: string, value: Option<string>)
    ensures AsMap(Optional(key, value)) == if value.Some? && value.value != "" then map[key := value.value] else map[]
  {
    if value.Some? && value.value != "" {
      AsMapOne((key, value.value));
    }
  }

  function Common(form: Form): seq<Field>
    requires !form.NoParent?
  {
    [("generation", Integer(form.generation))] + [("action", form.action)] + [("status", form.status)]
  }

  lemma AsMapCommon(form: Form)
    requires !form.NoParent?
    ensures AsMap(Common(form)) == map["generation" := Integer(form.generation), "action" := form.action, "status" := form.status]
  {
    var g, a, s := ("generation", Integer(form.generation)), ("action", form.action), ("status", form.status);
    AsMapOne(g);
    AsMapOne(a);
    AsMapOne(s);
    AsMapConcat([g], [a]);
    AsMapConcat([g] + [a], [s]);
  }

  function Base(form: Form): map<string, string>
    requires !form.NoParent?
  {
    map["generation" := Integer(form.generation), "action" := form.action, "status" := form.status]
  }

  function Extra(form: Form): map<string, string>
    requires !form.NoParent?
  {
    match form
    case Checkpoint(_, _, _, commit) => Entry("commit", commit)
    case Execution(generation, _, _, executionId, threadId, available) =>
      Entry("execution_id", executionId) + Entry("thread_id", threadId)
      + map["report" := if available then "available" else "unavailable"]
      + if available then map["report command" := ReportCommand(Integer(generation))] else map[]
  }

  /** What the dictionary of a printed form holds. */
  function Expected(form: Form): map<string, string>
    requires !form.NoParent?
  {
    Base(form) + Extra(form)
  }

  function Entry(key: string, value: Option<string>): map<string, string>
  {
    if value.Some? && value.value != "" then map[key := value.value] else map[]
  }

  lemma FieldsAsMap(form: Form)
    requires !form.NoParent?
    ensures AsMap(FieldsOf(form)) == Expected(form)
  {
    AsMapCommon(form);
    match form
    case Checkpoint(_, _, _, commit) =>
      AsMapOptional("commit", commit);
      AsMapConcat(Common(form), Optional("commit", commit));
      assert FieldsOf(form) == Common(form) + Optional("commit", commit);
    case Execution(generation, _, _, executionId, threadId, available) =>
      var report := ("report", if available then "available" else "unavailable");
      var command := ("report command", ReportCommand(Integer(generation)));
      var commands := if available then [command] else [];
      AsMapOptional("execution_id", executionId);
      AsMapOptional("thread_id", threadId);
      AsMapOne(report);
      AsMapOne(command);
      AsMapConcat(Optional("execution_id", executionId), Optional("thread_id", threadId));
      AsMapConcat(Optional("execution_id", executionId) + Optional("thread_id", threadId), [report]);
      AsMapConcat(Optional("execution_id", executionId) + Optional("thread_id", threadId) + [report], commands);
      var tail := Optional("execution_id", executionId) + Optional("thread_id", threadId) + [report] + commands;
      AsMapConcat(Common(form), tail);
      assert FieldsOf(form) == Common(form) + tail;
  }

  lemma CommandIsOneLine(n: nat)
    ensures OneLine(ReportCommand(Decimal(n))) && OneLine(Decimal(n))
  {
    DecimalDigits(n);
    var fixed := "python -m tools.atlas_agent report ";
    assert forall i :: 0 <= i < |fixed| ==> !EndsLine(fixed[i]);
  }

  lemma KeysAreSimple(key: string)
    requires key in KNOWN
    ensures OneLine(key) && ':' !in key
  {
  }

  lemma FieldIsSimple(key: string, value: string)
    requires key in KNOWN && OneLine(value)
    ensures Simple((key, value))
  {
    KeysAreSimple(key);
  }

  lemma OptionalIsSimple(key: string, value: Option<string>)
    requires key in KNOWN && (value.Some? ==> ContextLine(value.value) || CommitName(value.value))
    ensures forall f :: f in Optional(key, value) ==> Simple(f)
  {
    if value.Some? {
      ValuesAreOneLine(value.value);
      FieldIsSimple(key, value.value);
    }
  }

  lemma CommonIsSimple(form: Form)
    requires !form.NoParent? && Wellformed(form)
    ensures forall f :: f in Common(form) ==> Simple(f)
  {
    CommandIsOneLine(form.generation);
    FieldIsSimple("generation", Integer(form.generation));
    if form.Checkpoint? {
      assert ContextLine("checkpoint");
    }
    ValuesAreOneLine(form.action);
    FieldIsSimple("action", form.action);
    ValuesAreOneLine(form.status);
    FieldIsSimple("status", form.status);
  }

  lemma ReportIsSimple(generation: int, available: bool)
    requires 0 < generation
    ensures Simple(("report", if available then "available" else "unavailable"))
    ensures Simple(("report command", ReportCommand(Integer(generation))))
  {
    var text := if available then "available" else "unavailable";
    assert ContextLine(text);
    ValuesAreOneLine(text);
    FieldIsSimple("report", text);
    CommandIsOneLine(generation);
    FieldIsSimple("report command", ReportCommand(Integer(generation)));
  }

  lemma FieldsAreSimple(form: Form)
    requires !form.NoParent? && Wellformed(form)
    ensures forall f :: f in FieldsOf(form) ==> Simple(f)
  {
    CommonIsSimple(form);
    match form
    case Checkpoint(_, _, _, commit) =>
      OptionalIsSimple("commit", commit);
      assert FieldsOf(form) == Common(form) + Optional("commit", commit);
    case Execution(generation, _, _, executionId, threadId, available) =>
      OptionalIsSimple("execution_id", executionId);
      OptionalIsSimple("thread_id", threadId);
      ReportIsSimple(generation, available);
      assert FieldsOf(form)
          == Common(form) + (Optional("execution_id", executionId) + Optional("thread_id", threadId)
                             + [("report", if available then "available" else "unavailable")]
                             + if available then [("report command", ReportCommand(Integer(generation)))] else []);
  }

  const BASE_KEYS := {"generation", "action", "status"}
  const EXTRA_KEYS := {"commit", "execution_id", "thread_id", "report", "report command"}

  lemma KeysApart()
    ensures BASE_KEYS !! EXTRA_KEYS && KNOWN == BASE_KEYS + EXTRA_KEYS
    ensures "commit" != "execution_id" && "commit" != "thread_id" && "commit" != "report" && "commit" != "report command"
    ensures "execution_id" != "thread_id" && "execution_id" != "report" && "execution_id" != "report command"
    ensures "thread_id" != "report" && "thread_id" != "report command" && "report" != "report command"
  {
    assert |"commit"| == 6 && |"execution_id"| == 12 && |"thread_id"| == 9 && |"report"| == 6 && |"report command"| == 14;
    assert |"generation"| == 10 && |"action"| == 6 && |"status"| == 6;
    assert "commit"[0] == 'c' && "report"[0] == 'r' && "action"[0] == 'a' && "status"[0] == 's';
  }

  lemma CheckpointLookups(form: Form)
    requires form.Checkpoint? && Wellformed(form)
    ensures Extra(form).Keys <= {"commit"} && Lookup(Extra(form), "commit") == form.commit
  {
  }

  lemma ExecutionLookups(form: Form)
    requires form.Execution? && Wellformed(form)
    ensures Extra(form).Keys <= EXTRA_KEYS && Lookup(Extra(form), "commit").None?
    ensures Lookup(Extra(form), "execution_id") == form.executionId && Lookup(Extra(form), "thread_id") == form.threadId
    ensures Lookup(Extra(form), "report") == Some(if form.reportAvailable then "available" else "unavailable")
    ensures Lookup(Extra(form), "report command")
         == if form.reportAvailable then Some(ReportCommand(Integer(form.generation))) else None
  {
    KeysApart();
  }

  lemma ExtraLookups(form: Form)
    requires !form.NoParent? && Wellformed(form)
    ensures Extra(form).Keys <= EXTRA_KEYS
    ensures match form
            case Checkpoint(_, _, _, commit) => Extra(form).Keys <= {"commit"} && Lookup(Extra(form), "commit") == commit
            case Execution(generation, _, _, executionId, threadId, available) =>
              && Lookup(Extra(form), "execution_id") == executionId && Lookup(Extra(form), "thread_id") == threadId
              && Lookup(Extra(form), "commit").None?
              && Lookup(Extra(form), "report") == Some(if available then "available" else "unavailable")
              && Lookup(Extra(form), "report command") == if available then Some(ReportCommand(Integer(generation))) else None
  {
    if form.Checkpoint? {
      CheckpointLookups(form);
    } else {
      ExecutionLookups(form);
    }
  }

  lemma MergeLookups(base: map<string, string>, extra: map<string, string>)
    requires base.Keys == BASE_KEYS && extra.Keys <= EXTRA_KEYS
    ensures forall key :: key in BASE_KEYS ==> Lookup(base + extra, key) == Lookup(base, key)
    ensures forall key :: key in EXTRA_KEYS ==> Lookup(base + extra, key) == Lookup(extra, key)
    ensures (base + extra).Keys == base.Keys + extra.Keys && (base + extra).Keys <= KNOWN
  {
    KeysApart();
  }

  /** The dictionary holds exactly the parts of the form. */
  ghost predicate Mirrors(fields: map<string, string>, form: Form)
    requires !form.NoParent?
  {
    && fields.Keys <= KNOWN
    && Lookup(fields, "generation") == Some(Integer(form.generation))
    && Lookup(fields, "action") == Some(form.action) && Lookup(fields, "status") == Some(form.status)
    && match form
       case Checkpoint(_, _, _, commit) => fields.Keys <= BASE_KEYS + {"commit"} && Lookup(fields, "commit") == commit
       case Execution(generation, _, _, executionId, threadId, available) =>
         && Lookup(fields, "execution_id") == executionId && Lookup(fields, "thread_id") == threadId
         && Lookup(fields, "commit").None?
         && Lookup(fields, "report") == Some(if available then "available" else "unavailable")
         && Lookup(fields, "report command") == if available then Some(ReportCommand(Integer(generation))) else None
  }

  lemma BaseKeys(form: Form)
    requires !form.NoParent?
    ensures Base(form).Keys == BASE_KEYS
    ensures Lookup(Base(form), "generation") == Some(Integer(form.generation))
    ensures Lookup(Base(form), "action") == Some(form.action) && Lookup(Base(form), "status") == Some(form.status)
  {
    assert |"generation"| == 10 && |"action"| == 6 && |"status"| == 6 && "action"[0] == 'a' && "status"[0] == 's';
  }

  lemma ExpectedMirrors(form: Form)
    requires !form.NoParent? && Wellformed(form)
    ensures Mirrors(Expected(form), form)
  {
    BaseKeys(form);
    ExtraLookups(form);
    MergeLookups(Base(form), Extra(form));
  }

  lemma MirrorFits(form: Form, fields: map<string, string>, lines: seq<string>)
    requires !form.NoParent? && Wellformed(form) && Mirrors(fields, form)
    requires lines != [] && Bulleted(lines[0]) && SplitField(lines[0][2..]) == Some(("generation", Integer(form.generation)))
    requires ParseInteger(Integer(form.generation)) == Some(form.generation)
    ensures FieldsFit(fields, lines)
    ensures form.Checkpoint? ==> CheckpointFits(fields)
    ensures form.Execution? ==> ExecutionFits(fields)
  {
    if form.Checkpoint? {
      assert ContextLine("checkpoint");
    }
  }

  /** The printed items are what the parser finds, and they pass its tests. */
  lemma PrintedFits(form: Form)
    requires !form.NoParent? && Wellformed(form)
    ensures var lines := SplitLines(Print(FieldsOf(form)));
            && |lines| >= 3 && (forall line :: line in lines ==> Bulleted(line)) && lines[0] in lines
            && var fields := Dictionary(lines);
            && Mirrors(fields, form) && FieldsFit(fields, lines)
            && (form.Checkpoint? ==> CheckpointFits(fields)) && (form.Execution? ==> ExecutionFits(fields))
  {
    var fields := FieldsOf(form);
    FieldsAreSimple(form);
    PrintedFields(fields);
    ItemsCount(fields);
    FieldsAsMap(form);
    ItemFields(fields[0]);
    IntegerParses(form.generation);
    ExpectedMirrors(form);
    MirrorFits(form, Dictionary(SplitLines(Print(fields))), SplitLines(Print(fields)));
  }

  /** Every well-formed form is recovered from its printed text. */
  lemma RoundTrip(form: Form)
    requires Wellformed(form)
    ensures Decode(Encode(form)) == Some(form)
  {
    if !form.NoParent? {
      assert Encode(form)[|HEADER|..] == Print(FieldsOf(form));
      PrintedFits(form);
      NotTheMissingParent(form);
      IntegerParses(form.generation);
      var fields := Dictionary(SplitLines(Print(FieldsOf(form))));
      assert fields["generation"] == Integer(form.generation) && fields["action"] == form.action && fields["status"] == form.status;
    }
  }

  lemma NotTheMissingParent(form: Form)
    requires !form.NoParent?
    ensures Encode(form) != Encode(NoParent)
  {
    var missing := "- unavailable: no immediate parent artifact\n";
    var fields := FieldsOf(form);
    assert Encode(NoParent)[|HEADER|..] == missing && missing[2] == 'u';
    assert Encode(form)[|HEADER|..] == Item(fields[0]) + ("\n" + Print(fields[1..]));
    assert Item(fields[0])[2] == "generation"[0];
  }

  /** The validator accepts exactly the printed texts, of at most 4096 bytes, of well-formed forms that speak
      of the parent. */
  lemma AcceptedExactly(value: string, generation: int)
    ensures Accepted(value, generation)
       <==> Utf8Size(value) <= 4096 && exists form :: Wellformed(form) && SpeaksOfParent(form, generation) && value == Encode(form)
  {
    if Accepted(value, generation) {
      DecodedIsWellformed(value);
    }
    if form :| Wellformed(form) && SpeaksOfParent(form, generation) && value == Encode(form) {
      RoundTrip(form);
    }
  }
}
