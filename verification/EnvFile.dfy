/** The `.env` file of the local stack: its printer and its parser. */
module EnvFile {
  import opened Text

  type Values = map<string, string>

  // ----- Parsing -----

  /** What remains of a terminated line without the carriage return of a CRLF. */
  function Chopped(line: string): string {
    if line != "" && line[|line| - 1] == '\r' then line[..|line| - 1] else line
  }

  /** `str::lines`: an unterminated last line keeps its carriage return. */
  function Lines(text: string): seq<string>
    decreases |text|
  {
    if text == "" then []
    else
      match IndexOf(text, '\n')
      case None => [text]
      case Some(i) => [Chopped(text[..i])] + Lines(text[i + 1..])
  }

  datatype Invalid = InvalidLine

  predicate Skipped(line: string) {
    line == "" || line[0] == '#'
  }

  /** Adds the entries of the lines to `values`; a later entry replaces an earlier one. */
  function ParseLines(lines: seq<string>, values: Values): Result<Values, Invalid> {
    if lines == [] then Ok(values)
    else if Skipped(lines[0]) then ParseLines(lines[1..], values)
    else
      match IndexOf(lines[0], '=')
      case None => Err(InvalidLine)
      case Some(i) => ParseLines(lines[1..], values[lines[0][..i] := lines[0][i + 1..]])
  }

  function Parse(text: string): Result<Values, Invalid> {
    ParseLines(Lines(text), map[])
  }

  // ----- Printing -----

  function PrintEntry(key: string, value: string): string {
    key + "=" + value + "\n"
  }

  predicate InOrder(order: seq<string>, values: Values) {
    forall k :: 0 <= k < |order| ==> order[k] in values
  }

  /** The text of `values` with its keys in the given order. */
  function Print(values: Values, order: seq<string>): string
    requires InOrder(order, values)
  {
    if order == [] then ""
    else PrintEntry(order[0], values[order[0]]) + Print(values, order[1..])
  }

  /** Every key occurs in the order; a sorted map lists each once, but repetition would do no harm. */
  predicate Lists(order: seq<string>, values: Values) {
    && InOrder(order, values)
    && (forall key :: key in values ==> key in order)
  }

  // ----- What survives -----

  predicate SafeKey(key: string) {
    '=' !in key && '\n' !in key && (key != "" ==> key[0] != '#')
  }

  predicate SafeEntries(values: Values) {
    forall key :: key in values ==> SafeKey(key) && '\n' !in values[key]
  }

  predicate Unchopped(values: Values) {
    forall key :: key in values ==> values[key] == "" || values[key][|values[key]| - 1] != '\r'
  }

  lemma LineOfEntry(key: string, value: string, rest: string)
    requires SafeKey(key) && '\n' !in value
    ensures Lines(PrintEntry(key, value) + rest) == [key + "=" + Chopped(value)] + Lines(rest)
  {
    var line := key + "=" + value;
    assert PrintEntry(key, value) + rest == line + ['\n'] + rest;
    LinesOfFirst(line, rest);
    assert Chopped(line) == key + "=" + Chopped(value) by {
      assert line[|line| - 1] == if value == "" then '=' else value[|value| - 1];
    }
  }

  lemma EntryOfLine(key: string, value: string, lines: seq<string>, values: Values)
    requires SafeKey(key)
    ensures ParseLines([key + "=" + value] + lines, values) == ParseLines(lines, values[key := value])
  {
    var line := key + "=" + value;
    assert line == key + ['='] + value;
    IndexOfFirst(key, '=', value);
    assert line[..|key|] == key && line[|key| + 1..] == value;
    assert line[0] == if key == "" then '=' else key[0];
    assert ([line] + lines)[1..] == lines;
  }

  /** `read` with the printed entries added to it. */
  function ReadBack(values: Values, order: seq<string>, read: Values): Values
    requires InOrder(order, values)
  {
    if order == [] then read
    else ReadBack(values, order[1..], read[order[0] := Chopped(values[order[0]])])
  }

  lemma {:induction false} ReadBackAt(values: Values, order: seq<string>, read: Values, key: string)
    requires InOrder(order, values)
    ensures key in ReadBack(values, order, read) <==> key in order || key in read
    ensures key in order ==> ReadBack(values, order, read)[key] == Chopped(values[key])
    ensures key !in order && key in read ==> ReadBack(values, order, read)[key] == read[key]
  {
    if order != [] {
      ReadBackAt(values, order[1..], read[order[0] := Chopped(values[order[0]])], key);
      assert order == [order[0]] + order[1..];
    }
  }

  lemma ReadBackExactly(values: Values, order: seq<string>)
    requires Lists(order, values)
    ensures ReadBack(values, order, map[]) == values <==> Unchopped(values)
  {
    var back := ReadBack(values, order, map[]);
    forall key: string
      ensures key in back <==> key in values
      ensures key in values ==> back[key] == Chopped(values[key])
    {
      ReadBackAt(values, order, map[], key);
    }
    assert back.Keys == values.Keys;
    if Unchopped(values) {
      assert back == values;
    }
  }

  lemma {:induction false} ParseOfPrint(values: Values, order: seq<string>, read: Values)
    requires InOrder(order, values) && SafeEntries(values)
    ensures ParseLines(Lines(Print(values, order)), read) == Ok(ReadBack(values, order, read))
  {
    if order != [] {
      var key, rest := order[0], order[1..];
      LineOfEntry(key, values[key], Print(values, rest));
      EntryOfLine(key, Chopped(values[key]), Lines(Print(values, rest)), read);
      ParseOfPrint(values, rest, read[key := Chopped(values[key])]);
    }
  }

  lemma {:induction false} LinesAreLines(text: string)
    ensures forall k :: 0 <= k < |Lines(text)| ==> '\n' !in Lines(text)[k]
    decreases |text|
  {
    if text != "" && IndexOf(text, '\n').Some? {
      var i := IndexOf(text, '\n').value;
      NothingBeforeIndexOf(text, '\n');
      LinesAreLines(text[i + 1..]);
    }
  }

  lemma SafeEntryOfLine(line: string)
    requires '\n' !in line && !Skipped(line) && IndexOf(line, '=').Some?
    ensures SafeKey(line[..IndexOf(line, '=').value])
    ensures '\n' !in line[IndexOf(line, '=').value + 1..]
  {
    NothingBeforeIndexOf(line, '=');
  }

  lemma {:induction false} ParsedIsSafe(lines: seq<string>, values: Values)
    requires forall k :: 0 <= k < |lines| ==> '\n' !in lines[k]
    requires SafeEntries(values)
    ensures ParseLines(lines, values).Ok? ==> SafeEntries(ParseLines(lines, values).value)
  {
    if lines != [] {
      var rest := lines[1..];
      if Skipped(lines[0]) {
        ParsedIsSafe(rest, values);
      } else if IndexOf(lines[0], '=').Some? {
        var i := IndexOf(lines[0], '=').value;
        SafeEntryOfLine(lines[0]);
        ParsedIsSafe(rest, values[lines[0][..i] := lines[0][i + 1..]]);
      }
    }
  }

  /**
   * What is printed is read back exactly when no key holds `=` or a line feed or starts with `#`, and no
   * value holds a line feed or ends in a carriage return.
   */
  lemma RoundTripsExactly(values: Values, order: seq<string>)
    requires Lists(order, values)
    ensures Parse(Print(values, order)) == Ok(values) <==> SafeEntries(values) && Unchopped(values)
  {
    if Parse(Print(values, order)) == Ok(values) {
      LinesAreLines(Print(values, order));
      ParsedIsSafe(Lines(Print(values, order)), map[]);
    }
    if SafeEntries(values) {
      ParseOfPrint(values, order, map[]);
      ReadBackExactly(values, order);
    }
  }

  /** What was read survives being written and read again exactly when no value ends in a carriage return. */
  lemma RereadExactly(text: string, order: seq<string>)
    requires Parse(text).Ok? && Lists(order, Parse(text).value)
    ensures Parse(Print(Parse(text).value, order)) == Parse(text) <==> Unchopped(Parse(text).value)
  {
    LinesAreLines(text);
    ParsedIsSafe(Lines(text), map[]);
    RoundTripsExactly(Parse(text).value, order);
  }

  // ----- Lines without an entry -----

  /** Blank lines and comments are skipped; a line that is neither and has no `=` spoils the file. */
  lemma LinesWithoutEntry(line: string, rest: string)
    requires '\n' !in line && '\r' !in line && '=' !in line
    ensures Parse(line + "\n" + rest) == if line == "" || line[0] == '#' then Parse(rest) else Err(InvalidLine)
  {
    LinesOfFirst(line, rest);
    assert line + "\n" + rest == line + ['\n'] + rest;
    assert Chopped(line) == line;
    assert ([line] + Lines(rest))[1..] == Lines(rest);
  }

  /** So is a comment that holds one. */
  lemma CommentsAreSkipped(comment: string, rest: string)
    requires '\n' !in comment && comment != "" && comment[0] == '#'
    ensures Parse(comment + "\n" + rest) == Parse(rest)
  {
    LinesOfFirst(comment, rest);
    assert comment + "\n" + rest == comment + ['\n'] + rest;
    assert Chopped(comment) != "" && Chopped(comment)[0] == '#';
    assert ([Chopped(comment)] + Lines(rest))[1..] == Lines(rest);
  }

  // ----- Repeated keys -----

  lemma LinesOfFirst(line: string, rest: string)
    requires '\n' !in line
    ensures Lines(line + ['\n'] + rest) == [Chopped(line)] + Lines(rest)
  {
    var text := line + ['\n'] + rest;
    IndexOfFirst(line, '\n', rest);
    assert text[..|line|] == line && text[|line| + 1..] == rest;
  }

  lemma FirstLineApart(text: string) returns (line: string, rest: string)
    requires text != "" && text[|text| - 1] == '\n'
    ensures '\n' !in line && text == line + ['\n'] + rest
    ensures rest == "" || rest[|rest| - 1] == '\n'
  {
    var i := IndexOf(text, '\n').value;
    NothingBeforeIndexOf(text, '\n');
    line, rest := text[..i], text[i + 1..];
  }

  lemma Regrouped<T>(a: seq<T>, b: seq<T>, c: seq<T>)
    ensures a + b + c == a + (b + c)
  {
  }

  /** Whole lines can be read before what follows them. */
  lemma {:induction false} LinesOfConcat(text: string, more: string)
    requires text == "" || text[|text| - 1] == '\n'
    ensures Lines(text + more) == Lines(text) + Lines(more)
    decreases |text|
  {
    if text == "" {
      assert text + more == more;
    } else {
      var line, rest := FirstLineApart(text);
      Regrouped(line + ['\n'], rest, more);
      LinesOfFirst(line, rest);
      LinesOfFirst(line, rest + more);
      LinesOfConcat(rest, more);
      Regrouped([Chopped(line)], Lines(rest), Lines(more));
    }
  }

  lemma {:induction false} ParseOfConcat(a: seq<string>, b: seq<string>, values: Values)
    requires ParseLines(a, values).Ok?
    ensures ParseLines(a + b, values) == ParseLines(b, ParseLines(a, values).value)
  {
    if a == [] {
      assert a + b == b;
    } else {
      assert (a + b)[1..] == a[1..] + b;
      if Skipped(a[0]) {
        ParseOfConcat(a[1..], b, values);
      } else {
        var i := IndexOf(a[0], '=').value;
        ParseOfConcat(a[1..], b, values[a[0][..i] := a[0][i + 1..]]);
      }
    }
  }

  /** An entry that is appended to a file replaces an earlier entry of its key and changes no other. */
  lemma LaterEntryWins(text: string, key: string, value: string)
    requires Parse(text).Ok? && (text == "" || text[|text| - 1] == '\n')
    requires SafeKey(key) && '\n' !in value
    ensures Parse(text + PrintEntry(key, value)) == Ok(Parse(text).value[key := Chopped(value)])
  {
    var entry := PrintEntry(key, value);
    LinesOfConcat(text, entry);
    ParseOfConcat(Lines(text), Lines(entry), map[]);
    LineOfEntry(key, value, "");
    assert entry + "" == entry;
    EntryOfLine(key, Chopped(value), [], Parse(text).value);
    assert Lines("") == [];
  }
}
