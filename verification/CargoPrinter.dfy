/**
 * A printer for dependency sections, with free padding, comments, blank lines, text behind quoted
 * values and other fields in inline tables, and the proof of what the extractor reads from anything
 * printed: exactly which layouts it reads back, and what it makes of the others.
 */
module CargoPrinter {
  import opened Sequences
  import opened Wrappers
  import opened Strings
  import opened CargoDependencies

  /** How a value is written: in quotes, or as an inline table with other fields around the version. */
  datatype Form =
    | Quoted(tail: string)
    | Table(fields: string, beforeEquals: string, afterEquals: string, rest: string)

  /** One line of a dependency section. */
  datatype Line =
    | Entry(pad: string, dep: Dependency, beforeEquals: string, afterEquals: string, form: Form)
    | Comment(pad: string, text: string)
    | Blank(pad: string)

  predicate Padding(s: string) {
    AllSpace(s) && '\n' !in s
  }

  /** A name that is trimmed, and cannot be taken for a comment, a section or two parts. */
  predicate GoodName(name: string) {
    && Trim(name) == name
    && '=' !in name && '\n' !in name
    && !StartsWith(name, "#") && !StartsWith(name, "[")
  }

  predicate GoodForm(form: Form) {
    match form
    case Quoted(tail) => '\n' !in tail
    case Table(fields, beforeEquals, afterEquals, rest) =>
      '\n' !in fields && Padding(beforeEquals) && Padding(afterEquals) && '\n' !in rest
  }

  predicate Good(line: Line) {
    match line
    case Entry(pad, dep, beforeEquals, afterEquals, form) =>
      && Padding(pad) && Padding(beforeEquals) && Padding(afterEquals)
      && GoodName(dep.name) && '\n' !in dep.version && GoodForm(form)
    case Comment(pad, text) => Padding(pad) && '\n' !in text
    case Blank(pad) => Padding(pad)
  }

  function InQuotes(version: string): string {
    "\"" + version + "\""
  }

  function Assigned(pad: string, version: string): string {
    "=" + (pad + InQuotes(version))
  }

  /** The value from its first visible character on. */
  function PrintValue(version: string, form: Form): string {
    match form
    case Quoted(tail) => InQuotes(version) + tail
    case Table(fields, beforeEquals, afterEquals, rest) =>
      ("{" + fields) + "version" + (beforeEquals + Assigned(afterEquals, version) + rest)
  }

  function PrintLine(line: Line): string {
    match line
    case Entry(pad, dep, beforeEquals, afterEquals, form) =>
      pad + dep.name + beforeEquals + "=" + afterEquals + PrintValue(dep.version, form)
    case Comment(pad, text) => pad + "#" + text
    case Blank(pad) => pad
  }

  function Printed(lines: seq<Line>): (texts: seq<string>)
    ensures |texts| == |lines|
  {
    seq(|lines|, i requires 0 <= i < |lines| => PrintLine(lines[i]))
  }

  function OwnMeaning(line: Line): seq<Dependency> {
    if line.Entry? then [line.dep] else []
  }

  /** What the section is meant to say. */
  function Meaning(lines: seq<Line>): seq<Dependency> {
    if lines == [] then []
    else OwnMeaning(lines[0]) + Meaning(lines[1..])
  }

  // ---------------------------------------------------------------------------------------------
  // What the extractor makes of a printed line
  // ---------------------------------------------------------------------------------------------

  /** The text of a table behind the first `version` that stands in front of the real one, if any. */
  function Decoy(fields: string): Option<string> {
    match SplitFirst("{" + fields, "version")
    case Ok(split) => Some(split.after)
    case Err(_) => None
  }

  /**
   * The first `version` decides, wherever it stands: without an equals sign behind it the table is
   * refused, and behind the equals sign the first quoted text is taken, whichever field it is of.
   */
  function ReadTable(fields: string, beforeEquals: string, afterEquals: string, version: string): Parsed<string> {
    match Decoy(fields)
    case None => Ok(UpTo(version, '"'))
    case Some(after) =>
      if !StartsWith(TrimStart(after), "=") then Err(())
      else if '"' !in after then Ok(UpTo(version, '"'))
      else Ok(UpTo(Beyond(after, '"') + "version" + beforeEquals + "=" + afterEquals, '"'))
  }

  /** Visible text behind a closing quote is refused, or swallowed if it ends in a quote. */
  function ReadQuoted(version: string, tail: string): Parsed<string> {
    var t := TrimEnd(tail);
    if t == "" then Ok(version)
    else if t[|t| - 1] == '"' then Ok(version + "\"" + t[..|t| - 1])
    else Err(())
  }

  function ReadValue(version: string, form: Form): Parsed<string> {
    match form
    case Quoted(tail) => ReadQuoted(version, tail)
    case Table(fields, beforeEquals, afterEquals, _) => ReadTable(fields, beforeEquals, afterEquals, version)
  }

  function OwnReading(line: Line): seq<Dependency> {
    if line.Entry? && ReadValue(line.dep.version, line.form).Ok?
    then [Dependency(line.dep.name, ReadValue(line.dep.version, line.form).value)]
    else []
  }

  function Reading(lines: seq<Line>): seq<Dependency> {
    if lines == [] then []
    else OwnReading(lines[0]) + Reading(lines[1..])
  }

  /** A table that gives back its version, whatever that is, if it has no quote in it. */
  predicate ClearTable(fields: string) {
    match Decoy(fields)
    case None => true
    case Some(after) => StartsWith(TrimStart(after), "=") && '"' !in after
  }

  /** A table whose other field, taken for the version, happens to have the version's own text. */
  predicate SameByChance(fields: string, beforeEquals: string, afterEquals: string, version: string) {
    match Decoy(fields)
    case None => false
    case Some(after) =>
      && StartsWith(TrimStart(after), "=") && '"' in after
      && UpTo(Beyond(after, '"') + "version" + beforeEquals + "=" + afterEquals, '"') == version
  }

  predicate ReadsBack(line: Line) {
    line.Entry? ==>
      match line.form
      case Quoted(tail) => AllSpace(tail)
      case Table(fields, beforeEquals, afterEquals, _) =>
        || (ClearTable(fields) && '"' !in line.dep.version)
        || SameByChance(fields, beforeEquals, afterEquals, line.dep.version)
  }

  // ---------------------------------------------------------------------------------------------
  // Values
  // ---------------------------------------------------------------------------------------------

  lemma SpaceFacts(s: string)
    requires AllSpace(s)
    ensures '=' !in s && '"' !in s && '[' !in s && '#' !in s
  {
  }

  lemma QuotedVersion(version: string)
    ensures ExtractQuotedString(InQuotes(version)) == Ok(version)
  {
    var s := InQuotes(version);
    assert s[1..][..|s[1..]| - 1] == version;
    assert s[|s| - 1..] == "\"";
  }

  lemma InQuotesVisible(version: string)
    ensures InQuotes(version) != "" && !IsSpace(InQuotes(version)[0])
    ensures !IsSpace(InQuotes(version)[|InQuotes(version)| - 1])
  {
  }

  /** From the text behind a `version` on: what follows the padding must be an equals sign. */
  function AfterVersion(text: string): Parsed<string> {
    var trimmed := Trim(text);
    if StartsWith(trimmed, "=") then FirstQuoted(Trim(trimmed[1..])) else Err(())
  }

  /** The first text in quotes. */
  function FirstQuoted(text: string): Parsed<string> {
    match SplitFirst(text, "\"")
    case Err(_) => Err(())
    case Ok(opening) =>
      match SplitFirst(opening.after, "\"")
      case Err(_) => Err(())
      case Ok(closing) => Ok(closing.before)
  }

  lemma TableInSteps(table: string)
    ensures ExtractVersionFromTable(table)
         == match SplitFirst(table, "version")
            case Err(_) => Err(())
            case Ok(split) => AfterVersion(split.after)
  {
    hide SplitFirst, Trim;
  }

  /** In front of a quoted text, the first quoted text is that one, or one with its opening quote before. */
  lemma FirstQuotedText(before: string, version: string, end: string)
    ensures FirstQuoted(before + InQuotes(version) + end)
         == Ok(if '"' in before then UpTo(Beyond(before, '"'), '"') else UpTo(version, '"'))
  {
    hide SplitFirst, UpTo, Beyond;
    var text := before + InQuotes(version) + end;
    if '"' in before {
      SplitFirstBeyond(before, '"', InQuotes(version) + end);
      assert text == before + (InQuotes(version) + end);
      var after := Beyond(before, '"') + (InQuotes(version) + end);
      assert after == Beyond(before, '"') + "\"" + (version + "\"" + end);
      SplitFirstUpTo(Beyond(before, '"'), '"', version + "\"" + end);
    } else {
      assert text == before + "\"" + (version + "\"" + end);
      SplitFirstAtChar(before, '"', version + "\"" + end);
      assert version + "\"" + end == version + "\"" + end;
      SplitFirstUpTo(version, '"', end);
    }
  }

  /** What is read behind a `version`, if some text, a quoted one and any rest follow it. */
  lemma AfterVersionReads(text: string, version: string, rest: string)
    ensures AfterVersion(text + InQuotes(version) + rest)
         == if !StartsWith(TrimStart(text), "=") then Err(())
            else Ok(if '"' in text then UpTo(Beyond(text, '"'), '"') else UpTo(version, '"'))
  {
    hide Trim, TrimStart, TrimEnd, FirstQuoted, UpTo, Beyond, InQuotes;
    InQuotesVisible(version);
    TrimAround(text, InQuotes(version), rest);
    var shown, end := TrimStart(text), TrimEnd(rest);
    QuoteIsNoEquals(shown, version, end);
    if StartsWith(shown, "=") {
      var value := shown[1..];
      assert (shown + InQuotes(version) + end)[1..] == value + InQuotes(version) + end;
      TrimAround(value, InQuotes(version), end);
      FirstQuotedText(TrimStart(value), version, TrimEnd(end));
      BehindEquals(text);
    }
  }

  lemma QuoteIsNoEquals(shown: string, version: string, end: string)
    ensures StartsWith(shown + InQuotes(version) + end, "=") <==> StartsWith(shown, "=")
  {
    var s := shown + InQuotes(version) + end;
    if shown == "" {
      assert s[0] == '"';
    } else {
      assert s[..1] == shown[..1];
    }
  }

  /** Padding and the equals sign hide no quotes. */
  lemma BehindEquals(text: string)
    requires StartsWith(TrimStart(text), "=")
    ensures var value := TrimStart(TrimStart(text)[1..]);
            ('"' in value <==> '"' in text) && Beyond(value, '"') == Beyond(text, '"')
  {
    hide TrimStart, Beyond, UpTo;
    var shown := TrimStart(text);
    var l1 := TrimStartParts(text);
    var l2 := TrimStartParts(shown[1..]);
    SpaceFacts(l1);
    SpaceFacts(l2);
    assert text == (l1 + "=" + l2) + TrimStart(shown[1..]);
    BeyondSkips(l1 + "=" + l2, TrimStart(shown[1..]), '"');
  }

  /** The other direction of `TableShape`: every text of that shape is accepted, if its fields have no `version`. */
  lemma TableAccepted(fields: string, gap: string, other: string, version: string, rest: string)
    requires !Contains(fields, "version") && AllSpace(gap) && '"' !in other && '"' !in version
    ensures ExtractVersionFromTable(fields + "version" + gap + "=" + other + "\"" + version + "\"" + rest)
         == Ok(version)
  {
    hide SplitFirst, TrimStart, UpTo, Beyond, AfterVersion, ExtractVersionFromTable, Contains, AllSpace;
    var text := gap + "=" + other;
    var table := fields + "version" + gap + "=" + other + "\"" + version + "\"" + rest;
    var behind := text + InQuotes(version) + rest;
    TableInSteps(table);
    assert table == fields + "version" + behind;
    SplitFirstAtNeedle(fields, "version", behind);
    AfterVersionReads(text, version, rest);
    EqualsShown(gap, other);
    assert text == gap + ("=" + other);
    SpaceFacts(gap);
    UpToIsAll(version);
  }

  /** Everything in a printed table between its first `version` and its own quoted version. */
  function Gap(fields: string, beforeEquals: string, afterEquals: string): string {
    var own := beforeEquals + "=" + afterEquals;
    match Decoy(fields)
    case None => own
    case Some(after) => after + ("version" + own)
  }

  lemma TableSplit(version: string, fields: string, beforeEquals: string, afterEquals: string, rest: string)
    ensures var split := SplitFirst(PrintValue(version, Table(fields, beforeEquals, afterEquals, rest)), "version");
            && split.Ok?
            && split.value.after == Gap(fields, beforeEquals, afterEquals) + InQuotes(version) + rest
  {
    hide SplitFirst, InQuotes, Contains;
    var open, behind := "{" + fields, beforeEquals + Assigned(afterEquals, version) + rest;
    var own := beforeEquals + "=" + afterEquals;
    assert behind == own + InQuotes(version) + rest;
    ContainsSplit(open, "version");
    if Contains(open, "version") {
      SplitFirstExtends(open, "version", "version" + behind);
      assert open + "version" + behind == open + ("version" + behind);
      var after := SplitFirst(open, "version").value.after;
      assert after + ("version" + behind) == after + ("version" + own) + InQuotes(version) + rest;
    } else {
      SplitFirstAtNeedle(open, "version", behind);
    }
  }

  lemma ContainsSplit(s: string, needle: string)
    ensures Contains(s, needle) <==> SplitFirst(s, needle).Ok?
  {
  }

  lemma GapShown(fields: string, beforeEquals: string, afterEquals: string)
    requires AllSpace(beforeEquals) && AllSpace(afterEquals)
    ensures var gap := Gap(fields, beforeEquals, afterEquals);
            match Decoy(fields)
            case None => StartsWith(TrimStart(gap), "=") && '"' !in gap
            case Some(after) =>
              && (StartsWith(TrimStart(gap), "=") <==> StartsWith(TrimStart(after), "="))
              && ('"' in gap <==> '"' in after)
              && ('"' in after ==>
                    Beyond(gap, '"') == Beyond(after, '"') + "version" + beforeEquals + "=" + afterEquals)
  {
    hide TrimStart, Beyond, Decoy;
    var own := beforeEquals + "=" + afterEquals;
    SpaceFacts(beforeEquals);
    SpaceFacts(afterEquals);
    match Decoy(fields)
    case None =>
      assert own == beforeEquals + ("=" + afterEquals);
      TrimStartSkips(beforeEquals, "=" + afterEquals);
      TrimStartBefore("", "=" + afterEquals);
      TrimStartStep("=" + afterEquals);
    case Some(after) =>
      TrimStartBefore(after, "version" + own);
      VersionIsNoEquals(TrimStart(after), own);
      if '"' in after {
        BeyondExtends(after, '"', "version" + own);
        assert Beyond(after, '"') + ("version" + own)
            == Beyond(after, '"') + "version" + beforeEquals + "=" + afterEquals;
      }
  }

  lemma VersionIsNoEquals(shown: string, own: string)
    ensures StartsWith(shown + ("version" + own), "=") <==> StartsWith(shown, "=")
  {
    var s := shown + ("version" + own);
    if shown == "" {
      assert s[0] == 'v';
    } else {
      assert s[..1] == shown[..1];
    }
  }

  /** What is read from a table, whatever its fields, its version and the text behind it. */
  lemma TableReads(version: string, fields: string, beforeEquals: string, afterEquals: string, rest: string)
    requires AllSpace(beforeEquals) && AllSpace(afterEquals)
    ensures ExtractVersionFromTable(PrintValue(version, Table(fields, beforeEquals, afterEquals, rest)))
         == ReadTable(fields, beforeEquals, afterEquals, version)
  {
    hide SplitFirst, TrimStart, UpTo, Beyond, InQuotes, PrintValue, Gap, AfterVersion, ExtractVersionFromTable, Decoy;
    TableInSteps(PrintValue(version, Table(fields, beforeEquals, afterEquals, rest)));
    TableSplit(version, fields, beforeEquals, afterEquals, rest);
    AfterVersionReads(Gap(fields, beforeEquals, afterEquals), version, rest);
    GapShown(fields, beforeEquals, afterEquals);
  }

  /** A text up to its first quote is the text itself exactly if it has none. */
  lemma UpToIsAll(s: string)
    ensures UpTo(s, '"') == s <==> '"' !in s
  {
    hide UpTo;
    UpToParts(s, '"');
  }

  /**
   * A table gives back its version exactly if that has no quote in it and no other field is taken for
   * it, or the field that is taken for it has the same text.
   */
  lemma TableVersion(version: string, fields: string, beforeEquals: string, afterEquals: string, rest: string)
    requires AllSpace(beforeEquals) && AllSpace(afterEquals)
    ensures ExtractVersionFromTable(PrintValue(version, Table(fields, beforeEquals, afterEquals, rest))) == Ok(version)
       <==> || (ClearTable(fields) && '"' !in version)
            || SameByChance(fields, beforeEquals, afterEquals, version)
  {
    hide TrimStart, UpTo, Beyond, PrintValue, ExtractVersionFromTable, Decoy;
    TableReads(version, fields, beforeEquals, afterEquals, rest);
    UpToIsAll(version);
  }

  /** A table gives back every version without a quote exactly if no other field is taken for it. */
  lemma EveryTableVersion(fields: string, beforeEquals: string, afterEquals: string, rest: string)
    requires AllSpace(beforeEquals) && AllSpace(afterEquals)
    ensures (forall version | '"' !in version ::
               ExtractVersionFromTable(PrintValue(version, Table(fields, beforeEquals, afterEquals, rest)))
               == Ok(version))
       <==> ClearTable(fields)
  {
    hide TrimStart, UpTo, Beyond, PrintValue, ExtractVersionFromTable, Decoy, ClearTable;
    forall version: string
      ensures ExtractVersionFromTable(PrintValue(version, Table(fields, beforeEquals, afterEquals, rest)))
              == Ok(version)
         <==> || (ClearTable(fields) && '"' !in version)
              || SameByChance(fields, beforeEquals, afterEquals, version)
    {
      TableVersion(version, fields, beforeEquals, afterEquals, rest);
    }
    if SameByChance(fields, beforeEquals, afterEquals, "") {
      assert !SameByChance(fields, beforeEquals, afterEquals, "x");
    }
  }

  // ---------------------------------------------------------------------------------------------
  // Lines
  // ---------------------------------------------------------------------------------------------

  /** The value up to its last character that must not be trimmed. */
  function ValueCore(version: string, form: Form): string {
    match form
    case Quoted(_) => InQuotes(version)
    case Table(fields, beforeEquals, afterEquals, _) =>
      ("{" + fields) + "version" + (beforeEquals + Assigned(afterEquals, version))
  }

  function ValueTail(form: Form): string {
    if form.Quoted? then form.tail else form.rest
  }

  function WithTail(form: Form, tail: string): Form {
    if form.Quoted? then form.(tail := tail) else form.(rest := tail)
  }

  lemma ValueParts(version: string, form: Form, tail: string)
    ensures PrintValue(version, WithTail(form, tail)) == ValueCore(version, form) + tail
  {
    if form.Table? {
      var a, b := ("{" + form.fields) + "version", form.beforeEquals + Assigned(form.afterEquals, version);
      assert a + (b + tail) == (a + b) + tail;
    }
  }

  lemma CoreVisible(version: string, form: Form)
    ensures var core := ValueCore(version, form);
            core != "" && core[0] == (if form.Quoted? then '"' else '{') && core[|core| - 1] == '"'
  {
  }

  /** A quoted value reads back exactly when nothing visible follows the closing quote. */
  lemma QuotedExactly(version: string, tail: string)
    ensures ParseVersion(InQuotes(version) + tail) == Ok(version) <==> tail == ""
  {
    var s := InQuotes(version) + tail;
    assert s[0] == '"';
    if tail == "" {
      assert s == InQuotes(version);
      QuotedVersion(version);
    } else {
      assert |s[1..][..|s[1..]| - 1]| == |version| + |tail|;
    }
  }


  lemma VisibleEnds(name: string)
    requires Trim(name) == name && name != ""
    ensures !IsSpace(name[0]) && !IsSpace(name[|name| - 1])
  {
  }

  /** The name with its padding; without a name the padding in front of the equals sign goes. */
  function Left(name: string, pad: string): string {
    if name == "" then "" else name + pad
  }

  lemma LeftReads(name: string, pad: string)
    requires Trim(name) == name && '=' !in name && AllSpace(pad)
    ensures Trim(Left(name, pad)) == name && '=' !in Left(name, pad)
  {
    SpaceFacts(pad);
    if name != "" {
      VisibleEnds(name);
      TrimPadded("", name, pad);
      assert "" + name + pad == name + pad;
    }
  }

  lemma LineRegrouped(pad: string, name: string, p1: string, p2: string, core: string, tail: string)
    ensures var line := pad + name + p1 + "=" + p2 + (core + tail);
            && (name == "" ==> line == (pad + p1) + ("=" + p2 + core) + tail)
            && (name != "" ==> line == pad + (name + p1 + "=" + p2 + core) + tail)
  {
    var line := pad + name + p1 + "=" + p2 + (core + tail);
    if name == "" {
      assert pad + name == pad;
    }
  }

  /** What trimming leaves of a dependency line. */
  lemma LineTrimmed(pad: string, name: string, p1: string, p2: string, core: string, tail: string)
    requires AllSpace(pad) && AllSpace(p1) && Trim(name) == name
    requires core != "" && !IsSpace(core[|core| - 1])
    ensures Trim(pad + name + p1 + "=" + p2 + (core + tail)) == Left(name, p1) + "=" + (p2 + core + TrimEnd(tail))
  {
    hide Trim, TrimEnd;
    LineRegrouped(pad, name, p1, p2, core, tail);
    var visible := Left(name, p1) + "=" + p2 + core;
    if name == "" {
      assert visible == "=" + p2 + core;
      TrimPadded(pad + p1, "=" + p2 + core, tail);
    } else {
      VisibleEnds(name);
      assert visible[0] == name[0];
      TrimPadded(pad, visible, tail);
    }
    assert visible + TrimEnd(tail) == Left(name, p1) + "=" + (p2 + core + TrimEnd(tail));
  }

  /** From a trimmed line to its dependency, given how the value reads. */
  lemma LineParsed(name: string, p1: string, p2: string, core: string, tail: string)
    requires Trim(name) == name && '=' !in name && !StartsWith(name, "#") && AllSpace(p1) && AllSpace(p2)
    requires core != "" && !IsSpace(core[0]) && !IsSpace(core[|core| - 1])
    requires var line := Left(name, p1) + "=" + (p2 + core + tail); Trim(line) == line
    ensures ParseDependencyLine(Left(name, p1) + "=" + (p2 + core + tail))
         == match ParseVersion(core + TrimEnd(tail))
            case Ok(version) => Ok(Dependency(name, version))
            case Err(_) => Err(())
  {
    hide Trim, TrimEnd, ParseVersion, SplitFirst;
    var line := Left(name, p1) + "=" + (p2 + core + tail);
    LeftReads(name, p1);
    SplitFirstAtChar(Left(name, p1), '=', p2 + core + tail);
    TrimPadded(p2, core, tail);
    assert line[0] != '#' by {
      if name != "" { assert line[0] == name[0] && name[..1] == [name[0]]; }
    }
  }

  /** A printed entry reads back as its dependency exactly if its value does. */
  lemma EntryParsed(line: Line)
    requires line.Entry? && Padding(line.pad) && Padding(line.beforeEquals) && Padding(line.afterEquals)
    requires GoodName(line.dep.name)
    ensures var t := Trim(PrintLine(line)); var tail := TrimEnd(TrimEnd(ValueTail(line.form)));
            && t != "" && !StartsWith(t, "[") && Trim(t) == t
            && ParseDependencyLine(t)
               == match ParseVersion(ValueCore(line.dep.version, line.form) + tail)
                  case Ok(version) => Ok(Dependency(line.dep.name, version))
                  case Err(_) => Err(())
  {
    hide Trim, TrimEnd, ParseVersion, ParseDependencyLine, ValueCore, PrintValue;
    var core, tail := ValueCore(line.dep.version, line.form), ValueTail(line.form);
    var name, p1, p2 := line.dep.name, line.beforeEquals, line.afterEquals;
    CoreVisible(line.dep.version, line.form);
    ValueParts(line.dep.version, line.form, tail);
    assert WithTail(line.form, tail) == line.form;
    LineTrimmed(line.pad, name, p1, p2, core, tail);
    TrimTwice(PrintLine(line));
    LineParsed(name, p1, p2, core, TrimEnd(tail));
    var t := Left(name, p1) + "=" + (p2 + core + TrimEnd(tail));
    assert t[0] != '[' by {
      if name != "" { assert t[0] == name[0] && name[..1] == [name[0]]; }
    }
  }

  lemma {:induction false} TrimEndOfSpace(s: string)
    ensures TrimEnd(s) == "" <==> AllSpace(s)
  {
    if s == "" {
    } else {
      TrimEndOfSpace(s[..|s| - 1]);
      assert s == s[..|s| - 1] + [s[|s| - 1]];
    }
  }

  lemma TrimEndTwice(s: string)
    ensures TrimEnd(TrimEnd(s)) == TrimEnd(s)
  {
  }

  /**
   * The extractor does not know comments behind a value: a quoted entry with any text after its
   * closing quote reads back exactly when that text is white space.
   */
  lemma QuotedEntryReadsBack(line: Line)
    requires line.Entry? && line.form.Quoted?
    requires Padding(line.pad) && Padding(line.beforeEquals) && Padding(line.afterEquals) && GoodName(line.dep.name)
    ensures ParseDependencyLine(Trim(PrintLine(line))) == Ok(line.dep) <==> AllSpace(line.form.tail)
  {
    hide Trim, TrimEnd, ParseVersion, ParseDependencyLine, PrintLine;
    EntryParsed(line);
    TrimEndTwice(line.form.tail);
    TrimEndOfSpace(line.form.tail);
    QuotedExactly(line.dep.version, TrimEnd(line.form.tail));
  }

  /** Visible text behind the closing quote: without a quote at its end the value is refused, else swallowed. */
  lemma QuotedWithTail(version: string, tail: string)
    requires tail != ""
    ensures ParseVersion(InQuotes(version) + tail)
         == if tail[|tail| - 1] == '"' then Ok(version + "\"" + tail[..|tail| - 1]) else Err(())
  {
    var s := InQuotes(version) + tail;
    assert s[..1] == "\"" && s[|s| - 1..] == [tail[|tail| - 1]];
    assert s[1..][..|s[1..]| - 1] == version + "\"" + tail[..|tail| - 1];
  }

  /**
   * What becomes of a quoted entry with a comment or any other visible text behind its value, as in
   * `serde = "1.0" # pinned`: it is skipped, unless the text ends in a quote, and then the text
   * becomes part of the version.
   */
  lemma CommentedEntryIsSkipped(line: Line)
    requires line.Entry? && line.form.Quoted? && !AllSpace(line.form.tail)
    requires Padding(line.pad) && Padding(line.beforeEquals) && Padding(line.afterEquals) && GoodName(line.dep.name)
    ensures var tail := TrimEnd(line.form.tail);
            && tail != ""
            && ParseDependencyLine(Trim(PrintLine(line)))
               == if tail[|tail| - 1] == '"'
                  then Ok(Dependency(line.dep.name, line.dep.version + "\"" + tail[..|tail| - 1]))
                  else Err(())
  {
    hide Trim, TrimEnd, ParseVersion, ParseDependencyLine, PrintLine;
    EntryParsed(line);
    TrimEndTwice(line.form.tail);
    TrimEndOfSpace(line.form.tail);
    QuotedWithTail(line.dep.version, TrimEnd(line.form.tail));
  }

  /** The value of a printed entry reads as `ReadValue` says. */
  lemma ValueRead(version: string, form: Form)
    requires form.Table? ==> AllSpace(form.beforeEquals) && AllSpace(form.afterEquals)
    ensures ParseVersion(ValueCore(version, form) + TrimEnd(TrimEnd(ValueTail(form)))) == ReadValue(version, form)
  {
    hide ParseVersion, ExtractVersionFromTable, ReadTable, PrintValue, ValueCore, TrimEnd;
    var tail := TrimEnd(TrimEnd(ValueTail(form)));
    CoreVisible(version, form);
    if form.Quoted? {
      TrimEndTwice(form.tail);
      QuotedCore(version, form);
      if tail == "" {
        QuotedExactly(version, tail);
      } else {
        QuotedWithTail(version, tail);
      }
    } else {
      ValueParts(version, form, tail);
      TableReads(version, form.fields, form.beforeEquals, form.afterEquals, tail);
      TableParsed(ValueCore(version, form) + tail);
    }
  }

  /** The two readings of a table in which `version` comes before its own version, behind `open`. */
  lemma DecoyAt(open: string, after: string)
    requires !Contains("{" + open, "version")
    ensures Decoy(open + "version" + after) == Some(after)
  {
    hide SplitFirst, Contains;
    SplitFirstAtNeedle("{" + open, "version", after);
    assert "{" + (open + "version" + after) == ("{" + open) + "version" + after;
  }

  /** Any text but an equals sign behind an earlier `version`: the entry is skipped. */
  lemma DecoySkipsEntry(line: Line, open: string, after: string)
    requires Good(line) && line.Entry? && line.form.Table?
    requires line.form.fields == open + "version" + after
    requires !Contains("{" + open, "version") && !StartsWith(TrimStart(after), "=")
    ensures ParseDependencyLine(Trim(PrintLine(line))) == Err(())
  {
    hide Trim, TrimStart, TrimEnd, ParseVersion, ParseDependencyLine, ValueCore, PrintLine, Decoy;
    EntryParsed(line);
    ValueRead(line.dep.version, line.form);
    DecoyAt(open, after);
  }

  /** A quoted field whose name ends in `version`, in front of the version: its value is taken. */
  lemma DecoyTaken(line: Line, open: string, gap: string, gap': string, value: string, after: string)
    requires Good(line) && line.Entry? && line.form.Table?
    requires line.form.fields == open + "version" + (gap + "=" + gap' + "\"" + value + "\"" + after)
    requires !Contains("{" + open, "version") && AllSpace(gap) && AllSpace(gap') && '"' !in value
    ensures ParseDependencyLine(Trim(PrintLine(line))) == Ok(Dependency(line.dep.name, value))
  {
    hide Trim, TrimStart, TrimEnd, ParseVersion, ParseDependencyLine, ValueCore, PrintLine, Decoy, UpTo, Beyond;
    EntryParsed(line);
    ValueRead(line.dep.version, line.form);
    var behind := gap + "=" + gap' + "\"" + value + "\"" + after;
    DecoyAt(open, behind);
    FieldShown(gap, gap', value + "\"" + after);
    assert behind == gap + "=" + gap' + "\"" + (value + "\"" + after);
    FieldTaken(value, after, "version" + line.form.beforeEquals + "=" + line.form.afterEquals);
    assert value + "\"" + after + ("version" + line.form.beforeEquals + "=" + line.form.afterEquals)
        == value + "\"" + after + "version" + line.form.beforeEquals + "=" + line.form.afterEquals;
  }

  lemma FieldShown(gap: string, gap': string, rest: string)
    requires AllSpace(gap) && AllSpace(gap')
    ensures var text := gap + "=" + gap' + "\"" + rest;
            StartsWith(TrimStart(text), "=") && '"' in text && Beyond(text, '"') == rest
  {
    hide TrimStart, Beyond, AllSpace;
    var text := gap + "=" + gap' + "\"" + rest;
    EqualsShown(gap, gap' + "\"" + rest);
    assert text == gap + ("=" + (gap' + "\"" + rest));
    SpaceFacts(gap);
    SpaceFacts(gap');
    BeyondSkips(gap + "=" + gap', ['"'] + rest, '"');
    BeyondHere('"', rest);
    assert text == (gap + "=" + gap') + (['"'] + rest);
  }

  lemma EqualsShown(gap: string, rest: string)
    requires AllSpace(gap)
    ensures TrimStart(gap + ("=" + rest)) == "=" + rest
  {
    hide TrimStart;
    TrimStartSkips(gap, "=" + rest);
    TrimStartStep("=" + rest);
  }

  lemma FieldTaken(value: string, after: string, more: string)
    requires '"' !in value
    ensures UpTo(value + "\"" + after + more, '"') == value
  {
    hide UpTo;
    UpToHere(value, '"', after + more);
    assert value + "\"" + after + more == value + ['"'] + (after + more);
  }

  lemma QuotedCore(version: string, form: Form)
    requires form.Quoted?
    ensures ValueCore(version, form) == InQuotes(version)
  {
  }

  lemma TableParsed(value: string)
    requires value != "" && value[0] == '{'
    ensures ParseVersion(value) == ExtractVersionFromTable(value)
  {
    assert value[..1] == "{";
  }

  lemma BlankHasNoSection()
    ensures !IsDepSection("")
  {
    assert !OccursAt("", "dependencies]", 0);
  }

  /** Inside a dependency section a printed line adds what is read from it, and nothing else. */
  lemma LineRead(deps: seq<Dependency>, line: Line)
    requires Good(line)
    ensures Walk1(State(deps, true), PrintLine(line)) == State(deps + OwnReading(line), true)
  {
    hide Trim, TrimEnd, ParseVersion, ParseDependencyLine, IsDepSection, ReadValue;
    match line {
      case Entry(_, _, _, _, _) =>
        hide PrintLine;
        EntryParsed(line);
        ValueRead(line.dep.version, line.form);
      case Comment(pad, text) =>
        TrimPadded(pad, "#", text);
        TrimTwice(pad + "#" + text);
        CommentNotParsed("#" + TrimEnd(text));
      case Blank(pad) =>
        TrimSpace(pad);
        BlankHasNoSection();
    }
  }

  /** A line reads as what it means exactly if it is one of those that read back. */
  lemma ReadsBackExactly(line: Line)
    ensures OwnReading(line) == OwnMeaning(line) <==> ReadsBack(line)
    ensures |OwnReading(line)| <= |OwnMeaning(line)|
  {
    hide UpTo, Beyond, TrimStart, TrimEnd, Decoy, AllSpace;
    if line.Entry? {
      match line.form
      case Quoted(tail) =>
        TrimEndOfSpace(tail);
        Swallowed(line.dep.version, TrimEnd(tail));
      case Table(_, _, _, _) =>
        UpToIsAll(line.dep.version);
    }
  }

  lemma Swallowed(version: string, tail: string)
    ensures tail != "" ==> version + "\"" + tail[..|tail| - 1] != version
  {
    if tail != "" {
      assert |version + "\"" + tail[..|tail| - 1]| > |version|;
    }
  }

  lemma CommentNotParsed(text: string)
    requires StartsWith(text, "#") && Trim(text) == text
    ensures ParseDependencyLine(text) == Err(()) && text != "" && !StartsWith(text, "[")
  {
  }

  lemma ReadingStep(lines: seq<Line>)
    requires lines != []
    ensures Reading(lines) == OwnReading(lines[0]) + Reading(lines[1..])
    ensures Printed(lines)[0] == PrintLine(lines[0]) && Printed(lines)[1..] == Printed(lines[1..])
  {
    hide PrintLine, OwnReading;
  }

  lemma {:induction false} LinesRead(deps: seq<Dependency>, lines: seq<Line>)
    requires forall i | 0 <= i < |lines| :: Good(lines[i])
    ensures Walk(State(deps, true), Printed(lines)) == State(deps + Reading(lines), true)
    decreases |lines|
  {
    hide Walk1, PrintLine, Good, OwnReading;
    if lines == [] {
      assert deps + [] == deps;
    } else {
      LineRead(deps, lines[0]);
      LinesRead(deps + OwnReading(lines[0]), lines[1..]);
      FirstLineRead(deps, lines);
    }
  }

  lemma FirstLineRead(deps: seq<Dependency>, lines: seq<Line>)
    requires lines != []
    requires var deps' := deps + OwnReading(lines[0]);
             && Walk1(State(deps, true), PrintLine(lines[0])) == State(deps', true)
             && Walk(State(deps', true), Printed(lines[1..])) == State(deps' + Reading(lines[1..]), true)
    ensures Walk(State(deps, true), Printed(lines)) == State(deps + Reading(lines), true)
  {
    hide Walk, Walk1, PrintLine, OwnReading, Reading, Printed;
    ReadingStep(lines);
    WalkStep(State(deps, true), Printed(lines));
    Regroup(deps, OwnReading(lines[0]), Reading(lines[1..]));
  }

  /** No shorter parts make up for each other. */
  lemma SameParts<T>(a: seq<T>, b: seq<T>, a': seq<T>, b': seq<T>)
    requires |a| <= |a'| && |b| <= |b'|
    ensures a + b == a' + b' <==> a == a' && b == b'
  {
    if a + b == a' + b' {
      assert |a + b| == |a' + b'|;
      assert a == (a + b)[..|a|] == a' && b == (a + b)[|a|..] == b';
    }
  }

  /** Lines read as what they mean exactly if each of them reads back. */
  lemma {:induction false} AllReadBackExactly(lines: seq<Line>)
    ensures Reading(lines) == Meaning(lines) <==> forall i | 0 <= i < |lines| :: ReadsBack(lines[i])
    ensures |Reading(lines)| <= |Meaning(lines)|
  {
    hide OwnReading, OwnMeaning, ReadsBack;
    if lines == [] {
    } else {
      ReadsBackExactly(lines[0]);
      AllReadBackExactly(lines[1..]);
      SameParts(OwnReading(lines[0]), Reading(lines[1..]), OwnMeaning(lines[0]), Meaning(lines[1..]));
      assert lines == [lines[0]] + lines[1..];
    }
  }

  predicate Header(text: string) {
    '\n' !in text && StartsWith(Trim(text), "[") && IsDepSection(Trim(text))
  }

  lemma BreakInNeither(a: string, b: string)
    requires '\n' !in a && '\n' !in b
    ensures '\n' !in a + b
  {
  }

  lemma ValueHasNoBreaks(version: string, form: Form)
    requires '\n' !in version && GoodForm(form)
    ensures '\n' !in PrintValue(version, form)
  {
    hide AllSpace, Contains;
    match form
    case Quoted(tail) =>
      BreakInNeither(InQuotes(version), tail);
    case Table(fields, beforeEquals, afterEquals, rest) =>
      BreakInNeither(afterEquals, InQuotes(version));
      BreakInNeither("=", afterEquals + InQuotes(version));
      BreakInNeither(beforeEquals, Assigned(afterEquals, version));
      BreakInNeither(beforeEquals + Assigned(afterEquals, version), rest);
      BreakInNeither("{", fields);
      BreakInNeither("{" + fields, "version");
      BreakInNeither(("{" + fields) + "version", beforeEquals + Assigned(afterEquals, version) + rest);
  }

  lemma PrintedHasNoBreaks(line: Line)
    requires Good(line)
    ensures '\n' !in PrintLine(line)
  {
    hide AllSpace, PrintValue, GoodForm, Trim;
    match line
    case Entry(pad, dep, beforeEquals, afterEquals, form) =>
      ValueHasNoBreaks(dep.version, form);
      BreakInNeither(pad, dep.name);
      BreakInNeither(pad + dep.name, beforeEquals);
      BreakInNeither(pad + dep.name + beforeEquals, "=");
      BreakInNeither(pad + dep.name + beforeEquals + "=", afterEquals);
      BreakInNeither(pad + dep.name + beforeEquals + "=" + afterEquals, PrintValue(dep.version, form));
    case Comment(pad, text) =>
      BreakInNeither(pad, "#");
      BreakInNeither(pad + "#", text);
    case Blank(pad) =>
  }

  lemma LinesHaveNoBreaks(lines: seq<Line>)
    requires forall i | 0 <= i < |lines| :: Good(lines[i])
    ensures NoBreaks(Printed(lines))
  {
    hide PrintLine, Good;
    forall i | 0 <= i < |lines|
      ensures '\n' !in Printed(lines)[i]
    {
      PrintedHasNoBreaks(lines[i]);
    }
  }

  lemma BreaksInFront(first: string, rest: seq<string>)
    requires '\n' !in first && NoBreaks(rest)
    ensures NoBreaks([first] + rest)
  {
  }

  /**
   * Round trip, exactly: whatever entries, comments and blank lines are printed under a dependency
   * header, the extractor returns their readings, and these are the entries themselves, in order, if
   * and only if every entry is one that reads back.
   */
  lemma SectionRoundTrip(header: string, lines: seq<Line>)
    requires Header(header) && forall i | 0 <= i < |lines| :: Good(lines[i])
    ensures ExtractDependencies(JoinLines([header] + Printed(lines))) == Reading(lines)
    ensures ExtractDependencies(JoinLines([header] + Printed(lines))) == Meaning(lines)
       <==> forall i | 0 <= i < |lines| :: ReadsBack(lines[i])
    ensures StartsSection(JoinLines([header] + Printed(lines)))
  {
    hide Walk, Walk1, PrintLine, IsDepSection, Trim, SplitLines, JoinLines, Good, NoBreaks, ReadsBack;
    var all := [header] + Printed(lines);
    LinesHaveNoBreaks(lines);
    BreaksInFront(header, Printed(lines));
    SplitJoined(all);
    WalkStep(State([], false), all);
    HeaderResets(State([], false), header);
    assert all[1..] == Printed(lines);
    LinesRead([], lines);
    assert [] + Reading(lines) == Reading(lines);
    AllReadBackExactly(lines);
  }

  /** Any bracketed text that ends in `dependencies]` is a dependency header, whatever stands around that. */
  lemma KindOfHeader(kind: string, tail: string)
    requires '\n' !in kind && '\n' !in tail
    ensures Header("[" + kind + "dependencies]" + tail)
  {
    hide Trim, Contains, AllSpace, IsSpace;
    var text := "[" + kind + "dependencies]" + tail;
    OccursIn("[" + kind, "dependencies]", tail);
    NeedleVisible("dependencies]");
    ContainsTrimmed(text, "dependencies]");
    BracketFirst(kind + "dependencies]" + tail);
    assert text == "[" + (kind + "dependencies]" + tail);
    BreakInNeither("[" + kind, "dependencies]");
    BreakInNeither("[" + kind + "dependencies]", tail);
  }

  lemma NeedleVisible(needle: string)
    requires needle == "dependencies]"
    ensures !IsSpace(needle[0]) && !IsSpace(needle[|needle| - 1])
  {
  }

  lemma BracketFirst(rest: string)
    ensures StartsWith(Trim("[" + rest), "[")
  {
    hide IsSpace, TrimEnd;
    BracketVisible();
    TrimPadded("", "[", rest);
    assert "" + "[" + rest == "[" + rest;
  }

  /**
   * Sections `[dependencies]`, `[dev-dependencies]`, `[target.'cfg(unix)'.dependencies]` and so on are
   * read: under any such header, the extractor returns the readings of the lines.
   */
  lemma DependencyKindsAreRead(kind: string, tail: string, lines: seq<Line>)
    requires '\n' !in kind && '\n' !in tail && forall i | 0 <= i < |lines| :: Good(lines[i])
    ensures ExtractDependencies(JoinLines(["[" + kind + "dependencies]" + tail] + Printed(lines))) == Reading(lines)
  {
    hide ExtractDependencies, Header, Good, JoinLines, Printed, Reading;
    KindOfHeader(kind, tail);
    SectionRoundTrip("[" + kind + "dependencies]" + tail, lines);
  }

  /**
   * A comment wakes a section that is none: below any header, once a comment mentions a dependency
   * section, every entry that follows is read as if it were in one.
   */
  lemma CommentWakesSection(header: string, comment: Line, lines: seq<Line>)
    requires '\n' !in header && IsBracketed(header) && !Mentions(header)
    requires comment.Comment? && Good(comment) && Mentions(PrintLine(comment))
    requires forall i | 0 <= i < |lines| :: Good(lines[i])
    ensures ExtractDependencies(JoinLines([header, PrintLine(comment)] + Printed(lines))) == Reading(lines)
    ensures ExtractDependencies(JoinLines([header, PrintLine(comment)] + Printed(lines))) == Meaning(lines)
       <==> forall i | 0 <= i < |lines| :: ReadsBack(lines[i])
  {
    hide PrintLine, Walk, SplitLines, JoinLines, Good, Mentions, IsBracketed, NoBreaks, Reading, Printed, ReadsBack;
    var text := PrintLine(comment);
    PrintedHasNoBreaks(comment);
    LinesHaveNoBreaks(lines);
    TwoInFront(header, text, Printed(lines));
    WokenByText(header, text, Printed(lines));
    LinesRead([], lines);
    assert [] + Reading(lines) == Reading(lines);
    AllReadBackExactly(lines);
  }

  lemma TwoInFront(header: string, text: string, rest: seq<string>)
    requires '\n' !in header && '\n' !in text && NoBreaks(rest)
    ensures SplitLines(JoinLines([header, text] + rest)) == [header, text] + rest
  {
    hide SplitLines, JoinLines, NoBreaks;
    BreaksInFront(text, rest);
    BreaksInFront(header, [text] + rest);
    assert [header] + ([text] + rest) == [header, text] + rest;
    SplitJoined([header, text] + rest);
  }

  lemma WokenByText(header: string, text: string, rest: seq<string>)
    requires IsBracketed(header) && !Mentions(header) && Mentions(text)
    ensures Walk(State([], false), [header, text] + rest) == Walk(State([], true), rest)
  {
    hide Walk, Walk1, Mentions, IsBracketed, ParseDependencyLine;
    var start, all := State([], false), [header, text] + rest;
    WalkStep(start, all);
    Walk1Effect(start, header);
    assert Walk1(start, header) == start;
    WalkStep(start, all[1..]);
    Walk1Effect(start, text);
    assert Walk1(start, text) == State([], true);
    assert all[1..][1..] == rest;
  }

  /** The smallest case: a comment in section `[p]` makes the next line a dependency. */
  lemma CommentIsNotIgnored()
    ensures ExtractDependencies(JoinLines(["[p]", "#dependencies]", "v=\"1\""])) == [Dependency("v", "1")]
  {
    hide ExtractDependencies, Good, IsBracketed, PrintLine, JoinLines, Contains, Trim, IsSpace, Mentions;
    var comment, entry := Comment("", "dependencies]"), Entry("", Dependency("v", "1"), "", "", Quoted(""));
    CommentSpelled();
    SmallComment("dependencies]", "#dependencies]");
    SmallEntry("v", "1");
    SmallHeader("[p]");
    OneEntryWoken("[p]", comment, "#dependencies]", entry, "v=\"1\"");
  }

  lemma OneEntryWoken(header: string, comment: Line, commented: string, entry: Line, entered: string)
    requires '\n' !in header && IsBracketed(header) && !Mentions(header)
    requires comment.Comment? && Good(comment) && PrintLine(comment) == commented && Mentions(commented)
    requires entry.Entry? && Good(entry) && PrintLine(entry) == entered && entry.form == Quoted("")
    ensures ExtractDependencies(JoinLines([header, commented, entered])) == [entry.dep]
  {
    hide ExtractDependencies, Good, IsBracketed, PrintLine, JoinLines, Meaning, Reading, Mentions, Printed, ReadsBack;
    CommentWakesSection(header, comment, [entry]);
    PrintedOne(entry);
    assert [header, commented] + [entered] == [header, commented, entered];
    MeaningOfOne(entry);
    NothingBehind(entry);
    assert forall i | 0 <= i < |[entry]| :: ReadsBack([entry][i]);
  }

  lemma NothingBehind(line: Line)
    requires line.Entry? && line.form == Quoted("")
    ensures ReadsBack(line)
  {
  }

  lemma PrintedOne(line: Line)
    ensures Printed([line]) == [PrintLine(line)]
  {
    hide PrintLine;
  }

  lemma MeaningOfOne(line: Line)
    requires line.Entry?
    ensures Meaning([line]) == [line.dep]
  {
    assert Meaning([line][1..]) == [];
  }

  lemma CommentSpelled()
    ensures "#" + "dependencies]" == "#dependencies]"
  {
  }

  lemma SmallComment(text: string, printed: string)
    requires text == "dependencies]" && printed == "#" + text
    ensures Good(Comment("", text)) && PrintLine(Comment("", text)) == printed && Mentions(printed)
  {
    hide Trim, Contains;
    assert "" + "#" + text == printed;
    BracketVisible();
    VisibleTrims(printed);
    assert printed[1..] == text;
    ContainsAt(printed, text, 1);
  }

  lemma BracketVisible()
    ensures !IsSpace('#') && !IsSpace('[') && !IsSpace(']')
  {
  }

  lemma SmallEntry(name: string, version: string)
    requires name == "v" && version == "1"
    ensures Good(Entry("", Dependency(name, version), "", "", Quoted("")))
    ensures PrintLine(Entry("", Dependency(name, version), "", "", Quoted(""))) == "v=\"1\""
  {
    hide Trim;
    VisibleTrims(name);
    assert name[0] == 'v' && !StartsWith(name, "#") && !StartsWith(name, "[");
    assert "" + name + "" + "=" + "" + (InQuotes(version) + "") == "v=\"1\"";
  }

  lemma SmallHeader(header: string)
    requires header == "[p]"
    ensures IsBracketed(header) && !Mentions(header)
  {
    hide Trim, Contains;
    VisibleTrims(header);
    assert header[..1] == "[";
    TooShort(header, "dependencies]");
  }

  lemma VisibleTrims(s: string)
    requires s != "" && !IsSpace(s[0]) && !IsSpace(s[|s| - 1])
    ensures Trim(s) == s
  {
    TrimPadded("", s, "");
    assert "" + s + "" == s && s + "" == s;
  }

  lemma ContainsAt(s: string, needle: string, i: nat)
    requires OccursAt(s, needle, i)
    ensures Contains(s, needle)
  {
  }

  lemma TooShort(s: string, needle: string)
    requires |s| < |needle|
    ensures !Contains(s, needle)
  {
  }

  /** The entry `x` with version 2 and other fields in front of it. */
  function TableEntry(fields: string): Line {
    Entry("", Dependency("x", "2"), " ", " ", Table(fields, " ", " ", " }"))
  }

  function InTable(fields: string): string {
    "x = {" + fields + "version = \"2\" }"
  }

  lemma TableEntryPrinted(fields: string, text: string)
    requires '\n' !in fields && text == InTable(fields)
    ensures Good(TableEntry(fields)) && PrintLine(TableEntry(fields)) == text && Trim(text) == text
  {
    hide Trim;
    OneSpace();
    var line := TableEntry(fields);
    VisibleTrims("x");
    assert PrintLine(line) == text by {
      assert ("{" + fields) + "version" + (" " + ("=" + (" " + InQuotes("2"))) + " }")
          == "{" + fields + "version = \"2\" }";
    }
    VisibleTrims(text);
  }

  lemma OneSpace()
    ensures Padding(" ") && !IsSpace('x') && !IsSpace('}')
  {
  }

  /** A feature whose name has `version` in it: the entry is refused, so the dependency is not compared. */
  lemma TableWithVersionIsSkipped()
    ensures ParseDependencyLine("x = { features = [\"version-sync\"], version = \"2\" }") == Err(())
  {
    hide ParseDependencyLine, InTable;
    FeatureSpelled();
    FeatureTableSpelled();
    SkippedTable(" features = [\"", "-sync\"], ", " features = [\"version-sync\"], ");
  }

  lemma FeatureSpelled()
    ensures " features = [\"version-sync\"], " == " features = [\"" + "version" + "-sync\"], "
  {
  }

  lemma FeatureOpened()
    ensures "x = {" + " features = [\"version-sync\"], " == "x = { features = [\"version-sync\"], "
  {
  }

  lemma FeatureTableSpelled()
    ensures InTable(" features = [\"version-sync\"], ") == "x = { features = [\"version-sync\"], version = \"2\" }"
  {
    FeatureOpened();
  }

  lemma SkippedTable(open: string, after: string, fields: string)
    requires open == " features = [\"" && after == "-sync\"], " && fields == open + "version" + after
    ensures ParseDependencyLine(InTable(fields)) == Err(())
  {
    hide ParseDependencyLine, Trim, TrimStart, Good, PrintLine, InTable, Contains;
    TableEntryPrinted(fields, InTable(fields));
    TrimStartStep(after);
    NotEquals(after);
    NotContained("{" + open, "version");
    DecoySkipsEntry(TableEntry(fields), open, after);
  }

  lemma NotEquals(after: string)
    requires after != "" && after[0] == '-'
    ensures !IsSpace(after[0]) && !StartsWith(after, "=")
  {
  }

  /** A field whose name ends in `version`: its value is compared in place of the version. */
  lemma TableWithVersionIsMisread()
    ensures ParseDependencyLine("x = { rust-version = \"1.70\", version = \"2\" }") == Ok(Dependency("x", "1.70"))
  {
    hide ParseDependencyLine, InTable;
    FieldSpelled();
    FieldTableSpelled();
    MisreadTable(" rust-", " ", "1.70", ", ", " rust-version = \"1.70\", ");
  }

  lemma FieldSpelled()
    ensures " rust-version = \"1.70\", "
         == " rust-" + "version" + (" " + "=" + " " + "\"" + "1.70" + "\"" + ", ")
  {
    assert " " + "=" + " " + "\"" + "1.70" + "\"" + ", " == " = \"1.70\", ";
  }

  lemma FieldOpened()
    ensures "x = {" + " rust-version = \"1.70\", " == "x = { rust-version = \"1.70\", "
  {
  }

  lemma FieldTableSpelled()
    ensures InTable(" rust-version = \"1.70\", ") == "x = { rust-version = \"1.70\", version = \"2\" }"
  {
    FieldOpened();
  }

  lemma MisreadTable(open: string, gap: string, value: string, after: string, fields: string)
    requires open == " rust-" && gap == " " && value == "1.70" && after == ", "
    requires fields == open + "version" + (gap + "=" + gap + "\"" + value + "\"" + after)
    ensures ParseDependencyLine(InTable(fields)) == Ok(Dependency("x", value))
  {
    hide ParseDependencyLine, Trim, Good, PrintLine, InTable, Contains;
    TableEntryPrinted(fields, InTable(fields));
    OneSpace();
    NotContained("{" + open, "version");
    DecoyTaken(TableEntry(fields), open, gap, gap, value, after);
  }

  /** A small file: what stands under `[package]` is no dependency, what stands under `[dependencies]` is. */
  lemma SmallFile()
    ensures ExtractDependencies("[package]\nname = \"x\"" + "\n" + "[dependencies]\nserde = \"1.0\"")
         == [Dependency("serde", "1.0")]
  {
    hide ExtractDependencies, StartsSection;
    PackageIgnored("[package]\nname = \"x\"");
    SerdeSpelled();
    SerdeRead("[dependencies]", "serde = \"1.0\"", "[dependencies]\nserde = \"1.0\"");
    SectionsIndependent("[package]\nname = \"x\"", "[dependencies]\nserde = \"1.0\"");
  }

  lemma PackageIgnored(text: string)
    requires text == "[package]\nname = \"x\""
    ensures ExtractDependencies(text) == []
  {
    hide ExtractDependencies, Find;
    NotContained(text, "dependencies]");
    ContainsExactly(text, "dependencies]");
    NothingWithoutMention(text);
  }

  lemma SerdeSpelled()
    ensures "[dependencies]\nserde = \"1.0\"" == "[dependencies]" + "\n" + "serde = \"1.0\""
  {
  }

  lemma SerdeRead(header: string, entered: string, text: string)
    requires header == "[dependencies]" && entered == "serde = \"1.0\"" && text == header + "\n" + entered
    ensures ExtractDependencies(text) == [Dependency("serde", "1.0")] && StartsSection(text)
  {
    hide ExtractDependencies, StartsSection, Good, Header, PrintLine, Printed, Meaning, Reading, ReadsBack;
    var entry := Entry("", Dependency("serde", "1.0"), " ", " ", Quoted(""));
    SerdeEntry("serde", "1.0", entered);
    KindOfHeader("", "");
    assert "[" + "" + "dependencies]" + "" == header;
    SectionRoundTrip(header, [entry]);
    PrintedOne(entry);
    TwoLines(header, entered);
    MeaningOfOne(entry);
    NothingBehind(entry);
    assert forall i | 0 <= i < |[entry]| :: ReadsBack([entry][i]);
  }

  lemma TwoLines(a: string, b: string)
    ensures JoinLines([a] + [b]) == a + "\n" + b
  {
    assert ([a] + [b])[1..] == [b];
  }

  lemma SerdeEntry(name: string, version: string, text: string)
    requires name == "serde" && version == "1.0" && text == "serde = \"1.0\""
    ensures Good(Entry("", Dependency(name, version), " ", " ", Quoted("")))
    ensures PrintLine(Entry("", Dependency(name, version), " ", " ", Quoted(""))) == text
  {
    hide Trim;
    OneSpace();
    VisibleTrims(name);
    assert name[0] == 's' && !StartsWith(name, "#") && !StartsWith(name, "[");
    assert "" + name + " " + "=" + " " + (InQuotes(version) + "") == text;
  }

  /** A printed dependency section, or any other text that has no contributing line. */
  datatype Section = Dependencies(header: string, lines: seq<Line>) | Other(text: string)

  function PrintSection(s: Section): string {
    match s
    case Dependencies(header, lines) => JoinLines([header] + Printed(lines))
    case Other(text) => text
  }

  function SectionMeaning(s: Section): seq<Dependency> {
    match s
    case Dependencies(_, lines) => Meaning(lines)
    case Other(_) => []
  }

  predicate GoodSection(s: Section) {
    match s
    case Dependencies(header, lines) => Header(header) && forall i | 0 <= i < |lines| :: Good(lines[i])
    case Other(text) => Silent(text)
  }

  function SectionReading(s: Section): seq<Dependency> {
    match s
    case Dependencies(_, lines) => Reading(lines)
    case Other(_) => []
  }

  predicate SectionReadsBack(s: Section) {
    s.Dependencies? ==> forall i | 0 <= i < |s.lines| :: ReadsBack(s.lines[i])
  }

  function PrintFile(sections: seq<Section>): string
    requires sections != []
  {
    JoinLines(seq(|sections|, i requires 0 <= i < |sections| => PrintSection(sections[i])))
  }

  function FileReading(sections: seq<Section>): seq<Dependency> {
    ConcatAll(seq(|sections|, i requires 0 <= i < |sections| => SectionReading(sections[i])))
  }

  function FileMeaning(sections: seq<Section>): seq<Dependency> {
    ConcatAll(seq(|sections|, i requires 0 <= i < |sections| => SectionMeaning(sections[i])))
  }

  /**
   * A file of printed dependency sections among any other silent sections reads as the readings of
   * its entries, section after section, and these are the printed entries if and only if each one
   * reads back; only the text before the first header needs no header.
   */
  lemma FileRoundTrip(sections: seq<Section>)
    requires sections != [] && forall i | 0 <= i < |sections| :: GoodSection(sections[i])
    requires forall i | 0 < i < |sections| && sections[i].Other? :: StartsSection(sections[i].text)
    ensures ExtractDependencies(PrintFile(sections)) == FileReading(sections)
    ensures ExtractDependencies(PrintFile(sections)) == FileMeaning(sections)
       <==> forall i | 0 <= i < |sections| :: SectionReadsBack(sections[i])
  {
    hide ExtractDependencies, GoodSection, SectionReading, PrintSection, JoinLines, StartsSection, FileMeaning;
    hide SectionReadsBack;
    var texts := seq(|sections|, i requires 0 <= i < |sections| => PrintSection(sections[i]));
    forall i | 0 <= i < |sections|
      ensures i > 0 ==> StartsSection(texts[i])
      ensures ExtractDependencies(texts[i]) == SectionReading(sections[i])
    {
      SectionReads(sections[i]);
    }
    FileIsItsSections(texts);
    assert seq(|texts|, i requires 0 <= i < |texts| => ExtractDependencies(texts[i]))
        == seq(|sections|, i requires 0 <= i < |sections| => SectionReading(sections[i]));
    FileReadsBackExactly(sections);
  }

  lemma SectionReads(s: Section)
    requires GoodSection(s)
    ensures s.Dependencies? ==> StartsSection(PrintSection(s))
    ensures s.Other? ==> PrintSection(s) == s.text
    ensures ExtractDependencies(PrintSection(s)) == SectionReading(s)
  {
    hide ExtractDependencies, Good, Header, StartsSection, Silent;
    match s {
      case Dependencies(header, lines) => SectionRoundTrip(header, lines);
      case Other(text) => OtherTextIgnored(text);
    }
  }

  lemma SectionReadsBackExactly(s: Section)
    ensures SectionReading(s) == SectionMeaning(s) <==> SectionReadsBack(s)
    ensures |SectionReading(s)| <= |SectionMeaning(s)|
  {
    hide ReadsBack, Reading, Meaning;
    if s.Dependencies? {
      AllReadBackExactly(s.lines);
    }
  }

  lemma FileStep(sections: seq<Section>)
    requires sections != []
    ensures FileReading(sections) == SectionReading(sections[0]) + FileReading(sections[1..])
    ensures FileMeaning(sections) == SectionMeaning(sections[0]) + FileMeaning(sections[1..])
  {
    hide SectionReading, SectionMeaning;
    var rest := sections[1..];
    assert seq(|sections|, i requires 0 <= i < |sections| => SectionReading(sections[i]))[1..]
        == seq(|rest|, i requires 0 <= i < |rest| => SectionReading(rest[i]));
    assert seq(|sections|, i requires 0 <= i < |sections| => SectionMeaning(sections[i]))[1..]
        == seq(|rest|, i requires 0 <= i < |rest| => SectionMeaning(rest[i]));
  }

  lemma {:induction false} FileReadsBackExactly(sections: seq<Section>)
    ensures FileReading(sections) == FileMeaning(sections)
       <==> forall i | 0 <= i < |sections| :: SectionReadsBack(sections[i])
    ensures |FileReading(sections)| <= |FileMeaning(sections)|
  {
    hide SectionReading, SectionMeaning, SectionReadsBack, FileReading, FileMeaning;
    if sections == [] {
      NothingInFile();
    } else {
      var rest := sections[1..];
      SectionReadsBackExactly(sections[0]);
      FileReadsBackExactly(rest);
      FileStep(sections);
      SameParts(SectionReading(sections[0]), FileReading(rest), SectionMeaning(sections[0]), FileMeaning(rest));
      assert sections == [sections[0]] + rest;
    }
  }

  lemma NothingInFile()
    ensures FileReading([]) == [] && FileMeaning([]) == []
  {
  }
}
