/**
 * The dependency extractor of ci/check_cargo_versions_match.roc:120-242: a fold over the lines of a
 * Cargo.toml file with a section flag, and two syntaxes for the version.
 */
module CargoDependencies {
  import opened Sequences
  import opened Wrappers
  import opened Strings

  datatype Dependency = Dependency(name: string, version: string)

  /** Failures carry messages in the program; here they only fail. */
  type Parsed<T> = Result<T, ()>

  /** `extract_quoted_string`: drops one character at each end, a lone quote being both ends. */
  function ExtractQuotedString(str: string): Parsed<string> {
    if StartsWith(str, "\"") && EndsWith(str, "\"") then
      var rest := str[1..];
      Ok(if rest == "" then "" else rest[..|rest| - 1])
    else Err(())
  }

  /** `extract_version_from_table`. */
  function ExtractVersionFromTable(table: string): Parsed<string> {
    match SplitFirst(table, "version")
    case Err(_) => Err(())
    case Ok(split) =>
      var trimmedAfter := Trim(split.after);
      if StartsWith(trimmedAfter, "=") then
        match SplitFirst(Trim(trimmedAfter[1..]), "\"")
        case Err(_) => Err(())
        case Ok(opening) =>
          match SplitFirst(opening.after, "\"")
          case Err(_) => Err(())
          case Ok(closing) => Ok(closing.before)
      else Err(())
  }

  /** The version in a trimmed value: a quoted string or an inline table. */
  function ParseVersion(value: string): Parsed<string> {
    if StartsWith(value, "\"") then ExtractQuotedString(value)
    else if StartsWith(value, "{") then ExtractVersionFromTable(value)
    else Err(())
  }

  /** `parse_dependency_line`. */
  function ParseDependencyLine(line: string): Parsed<Dependency> {
    var trimmed := Trim(line);
    if StartsWith(trimmed, "#") || trimmed == "" then Err(())
    else
      match SplitFirst(trimmed, "=")
      case Err(_) => Err(())
      case Ok(split) =>
        match ParseVersion(Trim(split.after))
        case Err(_) => Err(())
        case Ok(version) => Ok(Dependency(Trim(split.before), version))
  }

  datatype State = State(deps: seq<Dependency>, inDepSection: bool)

  predicate IsDepSection(trimmed: string) {
    Contains(trimmed, "dependencies]")
  }

  /** What the fold does with one line. */
  function Walk1(state: State, line: string): State {
    var trimmed := Trim(line);
    var isDepSection := IsDepSection(trimmed);
    var isOtherSection := StartsWith(trimmed, "[") && !isDepSection && trimmed != "";
    var newInDepSection := if isDepSection then true else if isOtherSection then false else state.inDepSection;
    if state.inDepSection && trimmed != "" && !StartsWith(trimmed, "[") then
      match ParseDependencyLine(trimmed)
      case Ok(dep) => State(state.deps + [dep], newInDepSection)
      case Err(_) => state.(inDepSection := newInDepSection)
    else state.(inDepSection := newInDepSection)
  }

  function Walk(state: State, lines: seq<string>): State
    decreases |lines|
  {
    if lines == [] then state else Walk(Walk1(state, lines[0]), lines[1..])
  }

  /** `extract_dependencies`. */
  function ExtractDependencies(content: string): seq<Dependency> {
    Walk(State([], false), SplitLines(content)).deps
  }

  // ---------------------------------------------------------------------------------------------
  // Sections
  // ---------------------------------------------------------------------------------------------

  lemma {:induction false} WalkConcat(state: State, a: seq<string>, b: seq<string>)
    ensures Walk(state, a + b) == Walk(Walk(state, a), b)
    decreases |a|
  {
    if a == [] {
      assert a + b == b;
    } else {
      hide Walk, Walk1;
      WalkStep(state, a);
      WalkStep(state, a + b);
      WalkConcat(Walk1(state, a[0]), a[1..], b);
      assert (a + b)[1..] == a[1..] + b;
    }
  }

  lemma WalkStep(state: State, lines: seq<string>)
    requires lines != []
    ensures Walk(state, lines) == Walk(Walk1(state, lines[0]), lines[1..])
  {
  }

  /** What was found before does not influence what is found later. */
  lemma Walk1Appends(state: State, line: string)
    ensures Walk1(state, line).deps == state.deps + Walk1(State([], state.inDepSection), line).deps
    ensures Walk1(state, line).inDepSection == Walk1(State([], state.inDepSection), line).inDepSection
  {
  }

  lemma {:induction false} WalkAppends(state: State, lines: seq<string>)
    ensures Walk(state, lines).deps == state.deps + Walk(State([], state.inDepSection), lines).deps
    ensures Walk(state, lines).inDepSection == Walk(State([], state.inDepSection), lines).inDepSection
    decreases |lines|
  {
    Regroup(state.deps, [], []);
    if lines == [] {
    } else {
      Walk1Appends(state, lines[0]);
      WalkAppends(Walk1(state, lines[0]), lines[1..]);
      WalkAppends(Walk1(State([], state.inDepSection), lines[0]), lines[1..]);
      AppendStep(state, lines);
    }
  }

  lemma AppendStep(state: State, lines: seq<string>)
    requires lines != []
    requires var one, alone := Walk1(state, lines[0]), Walk1(State([], state.inDepSection), lines[0]);
             var rest := Walk(State([], one.inDepSection), lines[1..]);
             && one.inDepSection == alone.inDepSection && one.deps == state.deps + alone.deps
             && Walk(one, lines[1..]) == State(one.deps + rest.deps, rest.inDepSection)
             && Walk(alone, lines[1..]) == State(alone.deps + rest.deps, rest.inDepSection)
    ensures Walk(state, lines).deps == state.deps + Walk(State([], state.inDepSection), lines).deps
    ensures Walk(state, lines).inDepSection == Walk(State([], state.inDepSection), lines).inDepSection
  {
    hide Walk, Walk1;
    WalkStep(state, lines);
    WalkStep(State([], state.inDepSection), lines);
    var one, alone := Walk1(state, lines[0]), Walk1(State([], state.inDepSection), lines[0]);
    Regroup(state.deps, alone.deps, Walk(State([], one.inDepSection), lines[1..]).deps);
  }

  /** A line that starts with a bracket is never parsed, and sets the flag whatever it was. */
  lemma HeaderResets(state: State, line: string)
    requires StartsWith(Trim(line), "[")
    ensures Walk1(state, line) == State(state.deps, IsDepSection(Trim(line)))
  {
  }

  /** The text begins with a section header. */
  predicate StartsSection(text: string) {
    StartsWith(Trim(SplitLines(text)[0]), "[")
  }

  /** A section header cuts the file: both parts can be read on their own. */
  lemma SectionsIndependent(a: string, b: string)
    requires StartsSection(b)
    ensures ExtractDependencies(a + "\n" + b) == ExtractDependencies(a) + ExtractDependencies(b)
  {
    hide Walk, Walk1;
    var start, linesB := State([], false), SplitLines(b);
    var mid := Walk(start, SplitLines(a));
    SplitLinesConcat(a, b);
    WalkConcat(start, SplitLines(a), linesB);
    WalkStep(mid, linesB);
    WalkStep(start, linesB);
    HeaderResets(mid, linesB[0]);
    HeaderResets(start, linesB[0]);
    var flag := IsDepSection(Trim(linesB[0]));
    WalkAppends(State(mid.deps, flag), linesB[1..]);
    WalkAppends(State([], flag), linesB[1..]);
  }

  function ConcatAll(parts: seq<seq<Dependency>>): seq<Dependency> {
    if parts == [] then [] else parts[0] + ConcatAll(parts[1..])
  }

  function FromAllSections(sections: seq<string>): seq<Dependency> {
    if sections == [] then [] else ExtractDependencies(sections[0]) + FromAllSections(sections[1..])
  }

  lemma JoinStep(sections: seq<string>)
    requires |sections| > 1
    ensures JoinLines(sections) == sections[0] + "\n" + JoinLines(sections[1..])
  {
  }

  lemma {:induction false} FileIsAllSections(sections: seq<string>)
    requires sections != [] && forall i | 0 < i < |sections| :: StartsSection(sections[i])
    ensures ExtractDependencies(JoinLines(sections)) == FromAllSections(sections)
  {
    hide ExtractDependencies, StartsSection;
    if |sections| == 1 {
      assert sections[1..] == [];
      assert ExtractDependencies(sections[0]) + [] == ExtractDependencies(sections[0]);
    } else {
      FileIsAllSections(sections[1..]);
      JoinStarts(sections[1..]);
      JoinStep(sections);
      SectionsIndependent(sections[0], JoinLines(sections[1..]));
    }
  }

  /** A whole file is the concatenation of what its sections give on their own. */
  lemma FileIsItsSections(sections: seq<string>)
    requires sections != [] && forall i | 0 < i < |sections| :: StartsSection(sections[i])
    ensures ExtractDependencies(JoinLines(sections))
         == ConcatAll(seq(|sections|, i requires 0 <= i < |sections| => ExtractDependencies(sections[i])))
  {
    FileIsAllSections(sections);
    FromAllIsConcatAll(sections);
  }

  lemma JoinStarts(sections: seq<string>)
    requires sections != [] && StartsSection(sections[0])
    ensures StartsSection(JoinLines(sections))
  {
    if |sections| > 1 {
      SplitLinesConcat(sections[0], JoinLines(sections[1..]));
    }
  }

  // ---------------------------------------------------------------------------------------------
  // Which lines contribute
  // ---------------------------------------------------------------------------------------------

  predicate IsBracketed(line: string) {
    StartsWith(Trim(line), "[")
  }

  /** The line mentions a dependency section, as a header or anywhere else. */
  predicate Mentions(line: string) {
    IsDepSection(Trim(line))
  }

  /** Trimming aside: the text `dependencies]` stands somewhere in the line. */
  lemma MentionsExactly(line: string)
    ensures Mentions(line) <==> exists i: nat :: OccursAt(line, "dependencies]", i)
  {
    hide Trim, Find;
    ContainsTrimmed(line, "dependencies]");
    ContainsExactly(line, "dependencies]");
  }

  /** Only these lines change the section flag. */
  predicate Marks(line: string) {
    IsBracketed(line) || Mentions(line)
  }

  /** The line would be added inside a dependency section. */
  predicate Accepted(line: string) {
    !IsBracketed(line) && ParseDependencyLine(Trim(line)).Ok?
  }

  /** The last of the first `n` lines that sets the flag. */
  function LastMark(lines: seq<string>, n: nat): (r: Option<nat>)
    requires n <= |lines|
    ensures r.None? ==> forall j | 0 <= j < n :: !Marks(lines[j])
    ensures r.Some? ==> r.value < n && Marks(lines[r.value]) && forall j | r.value < j < n :: !Marks(lines[j])
  {
    if n == 0 then None else if Marks(lines[n - 1]) then Some(n - 1) else LastMark(lines, n - 1)
  }

  /** The flag before line `n`, starting with `flag`: what the last marking line says. */
  predicate InSection(flag: bool, lines: seq<string>, n: nat)
    requires n <= |lines|
  {
    match LastMark(lines, n)
    case None => flag
    case Some(k) => Mentions(lines[k])
  }

  /** A line contributes if it parses and the last marking line before it mentions a dependency section. */
  predicate Contributes(flag: bool, lines: seq<string>, i: nat)
    requires i < |lines|
  {
    InSection(flag, lines, i) && Accepted(lines[i])
  }

  function Contributions(flag: bool, lines: seq<string>, n: nat): seq<Dependency>
    requires n <= |lines|
  {
    if n == 0 then []
    else
      Contributions(flag, lines, n - 1)
      + if Contributes(flag, lines, n - 1) then [ParseDependencyLine(Trim(lines[n - 1])).value] else []
  }

  lemma Walk1Effect(state: State, line: string)
    ensures Walk1(state, line)
         == State(state.deps + (if state.inDepSection && Accepted(line) then [ParseDependencyLine(Trim(line)).value]
                                else []),
                  if Marks(line) then Mentions(line) else state.inDepSection)
  {
    assert state.deps + [] == state.deps;
  }

  lemma WalkLast(state: State, lines: seq<string>)
    requires lines != []
    ensures Walk(state, lines) == Walk1(Walk(state, lines[..|lines| - 1]), lines[|lines| - 1])
  {
    var init, last := lines[..|lines| - 1], lines[|lines| - 1];
    assert lines == init + [last];
    WalkConcat(state, init, [last]);
    WalkStep(Walk(state, init), [last]);
    assert [last][1..] == [];
  }

  /** The fold in closed form: the contributing lines in order, and the flag of the last marking line. */
  lemma {:induction false} WalkClosedForm(flag: bool, lines: seq<string>, n: nat)
    requires n <= |lines|
    ensures Walk(State([], flag), lines[..n]) == State(Contributions(flag, lines, n), InSection(flag, lines, n))
  {
    hide Walk1, Marks, Mentions, Accepted, ParseDependencyLine;
    if n == 0 {
    } else {
      WalkClosedForm(flag, lines, n - 1);
      WalkLast(State([], flag), lines[..n]);
      assert lines[..n][..n - 1] == lines[..n - 1];
      Walk1Effect(Walk(State([], flag), lines[..n - 1]), lines[n - 1]);
    }
  }

  /** The extractor returns exactly the contributing lines of the file, in order. */
  lemma ExtractClosedForm(content: string)
    ensures var lines := SplitLines(content); ExtractDependencies(content) == Contributions(false, lines, |lines|)
  {
    var lines := SplitLines(content);
    WalkClosedForm(false, lines, |lines|);
    assert lines[..|lines|] == lines;
  }

  lemma {:induction false} NothingContributes(flag: bool, lines: seq<string>, n: nat)
    requires n <= |lines|
    ensures Contributions(flag, lines, n) == [] <==> forall i | 0 <= i < n :: !Contributes(flag, lines, i)
  {
    hide Contributes;
    if n == 0 {
    } else {
      NothingContributes(flag, lines, n - 1);
    }
  }

  /** The text has no contributing line. */
  predicate Silent(content: string) {
    var lines := SplitLines(content);
    forall i | 0 <= i < |lines| :: !Contributes(false, lines, i)
  }

  /**
   * A text contributes nothing exactly when none of its lines does; in particular if no line of it
   * mentions a dependency section.
   */
  lemma OtherTextIgnored(content: string)
    ensures ExtractDependencies(content) == [] <==> Silent(content)
    ensures (forall i | 0 <= i < |SplitLines(content)| :: !Mentions(SplitLines(content)[i])) ==> Silent(content)
  {
    hide ExtractDependencies, Mentions, Accepted;
    var lines := SplitLines(content);
    ExtractClosedForm(content);
    NothingContributes(false, lines, |lines|);
  }

  /** In particular a text in which `dependencies]` does not occur. */
  lemma NothingWithoutMention(content: string)
    requires forall i: nat :: !OccursAt(content, "dependencies]", i)
    ensures ExtractDependencies(content) == []
  {
    hide ExtractDependencies, Trim, Find, SplitLines;
    var lines := SplitLines(content);
    forall i | 0 <= i < |lines|
      ensures !Mentions(lines[i])
    {
      ContainsTrimmed(lines[i], "dependencies]");
      if Mentions(lines[i]) {
        LinesContainNoMore(content, "dependencies]", i);
        ContainsExactly(content, "dependencies]");
        assert false;
      }
    }
    OtherTextIgnored(content);
  }

  predicate MentionedBefore(lines: seq<string>, n: nat)
    requires n <= |lines|
  {
    exists j :: 0 <= j < n && Mentions(lines[j])
  }

  lemma {:induction false} MentionTurnsOn(flag: bool, lines: seq<string>, n: nat)
    requires n <= |lines| && forall i | 0 <= i < n :: !IsBracketed(lines[i])
    ensures InSection(flag, lines, n) <==> flag || MentionedBefore(lines, n)
  {
    hide IsBracketed, Mentions;
    if n == 0 {
    } else {
      MentionTurnsOn(flag, lines, n - 1);
    }
  }

  /**
   * Below its header, where no line is bracketed, a section contributes nothing exactly when it is
   * not entered with the flag set and no accepted line comes after a mention; otherwise not even a
   * comment is safe.
   */
  lemma BodySilentExactly(flag: bool, lines: seq<string>)
    requires forall i | 0 <= i < |lines| :: !IsBracketed(lines[i])
    ensures Walk(State([], flag), lines).deps == []
       <==> forall i | 0 <= i < |lines| && Accepted(lines[i]) :: !flag && !MentionedBefore(lines, i)
  {
    hide IsBracketed, MentionedBefore, Accepted, InSection, Walk, Contributions;
    WalkClosedForm(flag, lines, |lines|);
    assert lines[..|lines|] == lines;
    NothingContributes(flag, lines, |lines|);
    forall i | 0 <= i < |lines|
      ensures Contributes(flag, lines, i) <==> (flag || MentionedBefore(lines, i)) && Accepted(lines[i])
    {
      MentionTurnsOn(flag, lines, i);
    }
  }

  /** The section's first line mentions a dependency section. */
  predicate IsDependencySection(section: string) {
    Mentions(SplitLines(section)[0])
  }

  /** What the dependency sections give on their own, the others being passed over. */
  function FromDependencySections(sections: seq<string>): seq<Dependency> {
    if sections == [] then []
    else
      (if IsDependencySection(sections[0]) then ExtractDependencies(sections[0]) else [])
      + FromDependencySections(sections[1..])
  }

  lemma {:induction false} FromAllIsConcatAll(sections: seq<string>)
    ensures FromAllSections(sections)
         == ConcatAll(seq(|sections|, i requires 0 <= i < |sections| => ExtractDependencies(sections[i])))
  {
    hide ExtractDependencies;
    var parts := seq(|sections|, i requires 0 <= i < |sections| => ExtractDependencies(sections[i]));
    if sections == [] {
    } else {
      FromAllIsConcatAll(sections[1..]);
      assert parts[1..]
          == seq(|sections| - 1, i requires 0 <= i < |sections| - 1 => ExtractDependencies(sections[1..][i]));
    }
  }

  lemma {:induction false} OthersEmptyExactly(sections: seq<string>)
    ensures |FromDependencySections(sections)| <= |FromAllSections(sections)|
    ensures FromAllSections(sections) == FromDependencySections(sections)
       <==> forall i | 0 <= i < |sections| && !IsDependencySection(sections[i]) ::
              ExtractDependencies(sections[i]) == []
  {
    hide ExtractDependencies, IsDependencySection;
    if sections == [] {
    } else {
      OthersEmptyExactly(sections[1..]);
      OthersStep(ExtractDependencies(sections[0]), FromAllSections(sections[1..]),
                 FromDependencySections(sections[1..]));
      assert forall i | 0 < i < |sections| :: sections[i] == sections[1..][i - 1];
    }
  }

  lemma OthersStep(first: seq<Dependency>, all: seq<Dependency>, some: seq<Dependency>)
    requires |some| <= |all|
    ensures first + all == [] + some <==> first == [] && all == some
    ensures first + all == first + some <==> all == some
  {
    assert |first + all| == |first| + |all|;
    assert (first + all)[|first|..] == all && (first + some)[|first|..] == some;
    assert [] + some == some;
  }

  /**
   * A file is the concatenation over its dependency sections exactly when every other section is
   * silent.
   */
  lemma FileIsItsDependencySections(sections: seq<string>)
    requires sections != [] && forall i | 0 < i < |sections| :: StartsSection(sections[i])
    ensures ExtractDependencies(JoinLines(sections)) == FromDependencySections(sections)
       <==> forall i | 0 <= i < |sections| && !IsDependencySection(sections[i]) :: Silent(sections[i])
  {
    hide ExtractDependencies, IsDependencySection, Silent, StartsSection;
    FileIsAllSections(sections);
    OthersEmptyExactly(sections);
    forall i | 0 <= i < |sections|
      ensures ExtractDependencies(sections[i]) == [] <==> Silent(sections[i])
    {
      OtherTextIgnored(sections[i]);
    }
  }

  // ---------------------------------------------------------------------------------------------
  // What an accepted line looks like
  // ---------------------------------------------------------------------------------------------

  /** An accepted string is in quotes, or is a lone quote that counts as an empty version. */
  lemma QuotedShape(value: string, version: string)
    requires ExtractQuotedString(value) == Ok(version)
    ensures value == "\"" + version + "\"" || (value == "\"" && version == "")
  {
    assert value[..1] == "\"";
    if |value| > 1 {
      assert value == value[..1] + value[1..];
      assert value[1..] == value[1..][..|value| - 2] + value[|value| - 1..];
    }
  }

  /** An accepted table has `version`, white space and `=`, and the version is the next quoted text. */
  lemma TableShape(table: string, version: string) returns (fields: string, gap: string, other: string, rest: string)
    requires ExtractVersionFromTable(table) == Ok(version)
    ensures table == fields + "version" + gap + "=" + other + "\"" + version + "\"" + rest
    ensures AllSpace(gap) && '"' !in other && '"' !in version
  {
    hide Trim, SplitFirst;
    SplitFirstParts(table, "version");
    var split := SplitFirst(table, "version").value;
    var trimmedAfter := Trim(split.after);
    var l1, r1 := TrimParts(split.after);
    var value := trimmedAfter[1..];
    assert trimmedAfter == "=" + value;
    var l2, r2 := TrimParts(value);
    SplitFirstParts(Trim(value), "\"");
    var opening := SplitFirst(Trim(value), "\"").value;
    SplitFirstParts(opening.after, "\"");
    var closing := SplitFirst(opening.after, "\"").value;
    fields, gap, other, rest := split.before, l1, l2 + opening.before, closing.after + r2 + r1;
    SpaceHasNoQuote(l2);
    TableRegrouped(fields, gap, l2, opening.before, version, closing.after, r2, r1);
  }

  lemma SpaceHasNoQuote(s: string)
    requires AllSpace(s)
    ensures '"' !in s
  {
  }

  lemma TableRegrouped(a: string, l1: string, l2: string, b: string, v: string, c: string, r2: string, r1: string)
    ensures a + "version" + (l1 + ("=" + (l2 + (b + "\"" + (v + "\"" + c)) + r2)) + r1)
         == a + "version" + l1 + "=" + (l2 + b) + "\"" + v + "\"" + (c + r2 + r1)
  {
  }

  /**
   * Soundness: whatever line is accepted, it is not a comment, its name is what stands before its
   * first equals sign, and its value is quoted or an inline table.
   */
  lemma ParsedLineShape(line: string, dep: Dependency) returns (before: string, after: string)
    requires ParseDependencyLine(line) == Ok(dep)
    ensures !StartsWith(Trim(line), "#")
    ensures Trim(line) == before + "=" + after && '=' !in before && dep.name == Trim(before)
    ensures var value := Trim(after);
            || value == "\"" + dep.version + "\""
            || (value == "\"" && dep.version == "")
            || (StartsWith(value, "{") && ExtractVersionFromTable(value) == Ok(dep.version))
  {
    hide Trim, SplitFirst, ExtractVersionFromTable, ExtractQuotedString;
    var split := SplitFirst(Trim(line), "=").value;
    SplitFirstParts(Trim(line), "=");
    before, after := split.before, split.after;
    var value := Trim(after);
    if StartsWith(value, "\"") {
      QuotedShape(value, dep.version);
    }
  }
}
