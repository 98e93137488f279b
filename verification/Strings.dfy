/** The string operations of the Roc standard library that the Cargo.toml reader uses. */
module Strings {
  import opened Wrappers

  /** The characters that `Str.trim` removes: Unicode white space. */
  predicate IsSpace(c: char) {
    || '\t' <= c <= '\r'
    || c == ' ' || c == '\U{0085}' || c == '\U{00A0}' || c == '\U{1680}'
    || '\U{2000}' <= c <= '\U{200A}'
    || c == '\U{2028}' || c == '\U{2029}' || c == '\U{202F}' || c == '\U{205F}' || c == '\U{3000}'
  }

  /** The property White_Space of the Unicode Standard, by code point. */
  lemma SpaceByCodePoint(c: char)
    ensures IsSpace(c)
       <==> c as int in {9, 10, 11, 12, 13, 32, 133, 160, 5760, 8192, 8193, 8194, 8195, 8196, 8197, 8198, 8199,
                         8200, 8201, 8202, 8232, 8233, 8239, 8287, 12288}
  {
  }

  predicate AllSpace(s: string) {
    forall c | c in s :: IsSpace(c)
  }

  function TrimStart(s: string): (r: string)
    ensures r == "" || !IsSpace(r[0])
  {
    if s != "" && IsSpace(s[0]) then TrimStart(s[1..]) else s
  }

  function TrimEnd(s: string): (r: string)
    ensures r == "" || !IsSpace(r[|r| - 1])
    ensures r <= s
  {
    if s != "" && IsSpace(s[|s| - 1]) then TrimEnd(s[..|s| - 1]) else s
  }

  /** `Str.trim`. */
  function Trim(s: string): string {
    TrimEnd(TrimStart(s))
  }

  predicate StartsWith(s: string, prefix: string) {
    prefix <= s
  }

  predicate EndsWith(s: string, suffix: string) {
    |suffix| <= |s| && s[|s| - |suffix|..] == suffix
  }

  predicate OccursAt(s: string, needle: string, i: nat) {
    i + |needle| <= |s| && s[i..i + |needle|] == needle
  }

  /** Where `needle` first occurs in `s`. */
  function Find(s: string, needle: string): (r: Option<nat>)
    ensures r.None? ==> forall i: nat :: !OccursAt(s, needle, i)
    ensures r.Some? ==> OccursAt(s, needle, r.value) && forall i: nat | i < r.value :: !OccursAt(s, needle, i)
  {
    FindFrom(s, needle, 0)
  }

  function FindFrom(s: string, needle: string, i: nat): (r: Option<nat>)
    ensures r.None? ==> forall j: nat | i <= j :: !OccursAt(s, needle, j)
    ensures r.Some? ==>
              && i <= r.value && OccursAt(s, needle, r.value)
              && forall j: nat | i <= j < r.value :: !OccursAt(s, needle, j)
    decreases |s| - i
  {
    if i + |needle| > |s| then None
    else if s[i..i + |needle|] == needle then Some(i)
    else FindFrom(s, needle, i + 1)
  }

  /** `Str.contains`. */
  predicate Contains(s: string, needle: string) {
    Find(s, needle).Some?
  }

  datatype Split = Split(before: string, after: string)

  /** `Str.split_first`. */
  function SplitFirst(s: string, needle: string): Result<Split, ()> {
    match Find(s, needle)
    case Some(i) => Ok(Split(s[..i], s[i + |needle|..]))
    case None => Err(())
  }

  /** `Str.split_on` with a line feed: there is always at least one piece. */
  function SplitLines(s: string): (lines: seq<string>)
    ensures lines != []
  {
    if s == "" then [""] else Cons(s[0], SplitLines(s[1..]))
  }

  function JoinLines(lines: seq<string>): string
    requires lines != []
  {
    if |lines| == 1 then lines[0] else lines[0] + "\n" + JoinLines(lines[1..])
  }

  // ---------------------------------------------------------------------------------------------
  // Trimming
  // ---------------------------------------------------------------------------------------------

  lemma {:induction false} TrimStartSkips(pad: string, s: string)
    requires AllSpace(pad)
    ensures TrimStart(pad + s) == TrimStart(s)
  {
    if pad == "" {
      assert pad + s == s;
    } else {
      assert pad[0] in pad;
      assert (pad + s)[1..] == pad[1..] + s;
      TrimStartSkips(pad[1..], s);
    }
  }

  lemma {:induction false} TrimEndSkips(s: string, pad: string)
    requires AllSpace(pad)
    ensures TrimEnd(s + pad) == TrimEnd(s)
  {
    if pad == "" {
      assert s + pad == s;
    } else {
      var n := |pad| - 1;
      assert pad[n] in pad;
      assert (s + pad)[..|s + pad| - 1] == s + pad[..n];
      TrimEndSkips(s, pad[..n]);
    }
  }

  /** Only the part behind the last visible character of `s` can be trimmed. */
  lemma {:induction false} TrimEndKeeps(s: string, tail: string)
    requires s != "" && !IsSpace(s[|s| - 1])
    ensures TrimEnd(s + tail) == s + TrimEnd(tail)
  {
    if tail == "" {
      assert s + tail == s;
    } else if IsSpace(tail[|tail| - 1]) {
      assert (s + tail)[..|s + tail| - 1] == s + tail[..|tail| - 1];
      TrimEndKeeps(s, tail[..|tail| - 1]);
    }
  }

  /** Padding disappears, and a core that starts and ends visibly stays as it is. */
  lemma TrimPadded(pad: string, core: string, tail: string)
    requires AllSpace(pad) && core != "" && !IsSpace(core[0]) && !IsSpace(core[|core| - 1])
    ensures Trim(pad + core + tail) == core + TrimEnd(tail)
    ensures AllSpace(tail) ==> Trim(pad + core + tail) == core
  {
    hide IsSpace, TrimStart, TrimEnd, AllSpace;
    assert pad + core + tail == pad + (core + tail);
    TrimStartSkips(pad, core + tail);
    TrimStartStep(core + tail);
    TrimEndKeeps(core, tail);
    if AllSpace(tail) {
      assert "" + tail == tail;
      TrimEndSkips("", tail);
      TrimEndOfNothing();
      assert core + "" == core;
    }
  }

  lemma TrimEndOfNothing()
    ensures TrimEnd("") == ""
  {
  }

  lemma TrimStartBefore(a: string, s: string)
    requires s != "" && !IsSpace(s[0])
    ensures TrimStart(a + s) == TrimStart(a) + s
  {
    hide IsSpace;
    var pad := TrimStartParts(a);
    assert a + s == pad + (TrimStart(a) + s);
    TrimStartSkips(pad, TrimStart(a) + s);
    TrimStartStep(TrimStart(a) + s);
  }

  /** The same with any text in front: its own padding goes, and so does the padding at the end. */
  lemma TrimAround(before: string, core: string, tail: string)
    requires core != "" && !IsSpace(core[0]) && !IsSpace(core[|core| - 1])
    ensures Trim(before + core + tail) == TrimStart(before) + core + TrimEnd(tail)
  {
    hide IsSpace, Trim, TrimEnd;
    var pad := TrimStartParts(before);
    var kept := TrimStart(before) + core;
    assert before + core + tail == pad + kept + tail;
    TrimPadded(pad, kept, tail);
  }

  lemma TrimSpace(pad: string)
    requires AllSpace(pad)
    ensures Trim(pad) == ""
  {
    assert pad + "" == pad;
    TrimStartSkips(pad, "");
  }

  lemma TrimTwice(s: string)
    ensures Trim(Trim(s)) == Trim(s)
  {
    var t := TrimStart(s);
    if Trim(s) != "" {
      assert Trim(s)[0] == t[0];
    }
  }

  lemma TrimStartStep(s: string)
    ensures TrimStart(s) == if s != "" && IsSpace(s[0]) then TrimStart(s[1..]) else s
  {
  }

  lemma AllSpaceCons(c: char, s: string)
    requires IsSpace(c) && AllSpace(s)
    ensures AllSpace([c] + s)
  {
    hide IsSpace;
  }

  /** Trimming takes away white space at both ends and nothing else. */
  lemma {:induction false} TrimStartParts(s: string) returns (l: string)
    ensures AllSpace(l) && s == l + TrimStart(s)
  {
    TrimStartStep(s);
    if s != "" && IsSpace(s[0]) {
      hide IsSpace, TrimStart, AllSpace;
      var l1 := TrimStartParts(s[1..]);
      l := [s[0]] + l1;
      AllSpaceCons(s[0], l1);
      assert s == [s[0]] + s[1..];
    } else {
      l := "";
    }
  }

  lemma {:induction false} TrimEndParts(s: string) returns (r: string)
    ensures AllSpace(r) && s == TrimEnd(s) + r
  {
    hide IsSpace;
    if s != "" && IsSpace(s[|s| - 1]) {
      var r1 := TrimEndParts(s[..|s| - 1]);
      r := r1 + [s[|s| - 1]];
      assert s == s[..|s| - 1] + [s[|s| - 1]];
    } else {
      r := "";
    }
  }

  lemma TrimParts(s: string) returns (l: string, r: string)
    ensures AllSpace(l) && AllSpace(r) && s == l + Trim(s) + r
  {
    l := TrimStartParts(s);
    r := TrimEndParts(TrimStart(s));
    assert l + (Trim(s) + r) == l + Trim(s) + r;
  }

  // ---------------------------------------------------------------------------------------------
  // Searching
  // ---------------------------------------------------------------------------------------------

  /** A split puts together to the whole, and one character does not occur before its first place. */
  lemma SplitFirstParts(s: string, needle: string)
    requires SplitFirst(s, needle).Ok?
    ensures var split := SplitFirst(s, needle).value; s == split.before + needle + split.after
    ensures |needle| == 1 ==> needle[0] !in SplitFirst(s, needle).value.before
  {
    var i := Find(s, needle).value;
    assert OccursAt(s, needle, i);
    if |needle| == 1 {
      forall j: nat | j < i
        ensures s[j] != needle[0]
      {
        assert !OccursAt(s, needle, j);
        assert s[j..j + 1] == [s[j]];
      }
    }
  }

  /** Splitting finds the needle behind `a` if it does not occur any earlier. */
  lemma SplitFirstAt(a: string, needle: string, b: string)
    requires forall i: nat | i < |a| :: !OccursAt(a + needle + b, needle, i)
    ensures SplitFirst(a + needle + b, needle) == Ok(Split(a, b))
  {
    var s := a + needle + b;
    assert s[|a|..|a| + |needle|] == needle;
    assert OccursAt(s, needle, |a|);
    assert s[..|a|] == a && s[|a| + |needle|..] == b;
  }

  lemma SplitFirstAtChar(a: string, c: char, b: string)
    requires c !in a
    ensures SplitFirst(a + [c] + b, [c]) == Ok(Split(a, b))
  {
    var s := a + [c] + b;
    forall i: nat | i < |a|
      ensures !OccursAt(s, [c], i)
    {
      assert s[i..i + 1] == [a[i]];
    }
    SplitFirstAt(a, [c], b);
  }

  /** A needle whose first character does not come back in it cannot straddle the end of `a`. */
  lemma SplitFirstAtNeedle(a: string, needle: string, b: string)
    requires needle != "" && needle[0] !in needle[1..] && !Contains(a, needle)
    ensures SplitFirst(a + needle + b, needle) == Ok(Split(a, b))
  {
    var s := a + needle + b;
    forall i: nat | i < |a|
      ensures !OccursAt(s, needle, i)
    {
      if i + |needle| <= |a| {
        assert !OccursAt(a, needle, i) && s[i..i + |needle|] == a[i..i + |needle|];
      } else if i + |needle| <= |s| {
        var k := |a| - i;
        assert s[i..i + |needle|][k] == s[|a|] == needle[0];
        assert needle[1..][k - 1] == needle[k];
      }
    }
    SplitFirstAt(a, needle, b);
  }

  lemma NotContained(s: string, needle: string)
    requires needle != "" && needle[0] !in s
    ensures !Contains(s, needle)
  {
    forall i: nat | i + |needle| <= |s|
      ensures !OccursAt(s, needle, i)
    {
      assert s[i..i + |needle|][0] == s[i];
    }
  }

  lemma ContainsExactly(s: string, needle: string)
    ensures Contains(s, needle) <==> exists i: nat :: OccursAt(s, needle, i)
  {
  }

  lemma OccursIn(a: string, needle: string, b: string)
    ensures OccursAt(a + needle + b, needle, |a|) && Contains(a + needle + b, needle)
  {
    var s := a + needle + b;
    assert s[|a|..|a| + |needle|] == needle;
    assert OccursAt(s, needle, |a|);
  }

  lemma SliceOfSlice(s: string, lo: nat, hi: nat, i: nat, j: nat)
    requires lo <= hi <= |s| && i <= j <= hi - lo
    ensures s[lo..hi][i..j] == s[lo + i..lo + j]
  {
    var part := s[lo..hi];
    assert |part[i..j]| == |s[lo + i..lo + j]|;
    forall k | 0 <= k < j - i
      ensures part[i..j][k] == s[lo + i..lo + j][k]
    {
      assert part[i + k] == s[lo + (i + k)];
    }
  }

  lemma PartContainsNoMore(s: string, at: nat, part: string, needle: string)
    requires at + |part| <= |s| && s[at..at + |part|] == part && Contains(part, needle)
    ensures Contains(s, needle)
  {
    hide FindFrom;
    var i := Find(part, needle).value;
    assert OccursAt(part, needle, i);
    SliceOfSlice(s, at, at + |part|, i, i + |needle|);
    assert OccursAt(s, needle, at + i);
  }

  /** A needle with visible ends lies within the visible part. */
  lemma VisibleOccurrence(l: string, t: string, r: string, needle: string, i: nat)
    requires AllSpace(l) && AllSpace(r) && OccursAt(l + t + r, needle, i)
    requires needle != "" && !IsSpace(needle[0]) && !IsSpace(needle[|needle| - 1])
    ensures |l| <= i && i + |needle| <= |l| + |t| && OccursAt(t, needle, i - |l|)
  {
    hide IsSpace;
    var s, n := l + t + r, |needle|;
    assert s[i] == s[i..i + n][0] && s[i + n - 1] == s[i..i + n][n - 1];
    assert t == s[|l|..|l| + |t|];
    SliceOfSlice(s, |l|, |l| + |t|, i - |l|, i - |l| + n);
  }

  /** Trimming takes nothing away from a needle with visible ends. */
  lemma ContainsTrimmed(s: string, needle: string)
    requires needle != "" && !IsSpace(needle[0]) && !IsSpace(needle[|needle| - 1])
    ensures Contains(Trim(s), needle) <==> Contains(s, needle)
  {
    hide IsSpace, Trim, Find, OccursAt, AllSpace;
    var l, r := TrimParts(s);
    var t := Trim(s);
    if Contains(t, needle) {
      assert s[|l|..|l| + |t|] == t;
      PartContainsNoMore(s, |l|, t, needle);
    }
    if Contains(s, needle) {
      VisibleOccurrence(l, t, r, needle, Find(s, needle).value);
    }
  }

  /** Text behind the first occurrence does not change where that is. */
  lemma SplitFirstExtends(a: string, needle: string, b: string)
    requires SplitFirst(a, needle).Ok?
    ensures var split := SplitFirst(a, needle).value;
            SplitFirst(a + b, needle) == Ok(Split(split.before, split.after + b))
  {
    var i, split := Find(a, needle).value, SplitFirst(a, needle).value;
    var s := a + b;
    forall j: nat | j <= i
      ensures OccursAt(s, needle, j) <==> OccursAt(a, needle, j)
    {
      assert s[j..j + |needle|] == a[j..j + |needle|];
    }
    assert Find(s, needle) == Some(i);
    assert s[..i] == split.before && s[i + |needle|..] == split.after + b;
  }

  /** The part of `s` before its first `c`, all of it if there is none. */
  function UpTo(s: string, c: char): string {
    if s == "" || s[0] == c then "" else [s[0]] + UpTo(s[1..], c)
  }

  /** The part of `s` behind its first `c`. */
  function Beyond(s: string, c: char): string {
    if s == "" then "" else if s[0] == c then s[1..] else Beyond(s[1..], c)
  }

  lemma {:induction false} UpToParts(s: string, c: char)
    ensures c !in UpTo(s, c)
    ensures if c in s then s == UpTo(s, c) + [c] + Beyond(s, c) else UpTo(s, c) == s
  {
    if s == "" {
    } else {
      UpToParts(s[1..], c);
      assert s == [s[0]] + s[1..];
    }
  }

  lemma {:induction false} BeyondSkips(a: string, s: string, c: char)
    requires c !in a
    ensures Beyond(a + s, c) == Beyond(s, c)
  {
    if a == "" {
      assert a + s == s;
    } else {
      BeyondSkips(a[1..], s, c);
      assert (a + s)[1..] == a[1..] + s;
    }
  }

  /** Splitting at a character that stands behind `s`, and perhaps in it. */
  lemma SplitFirstUpTo(s: string, c: char, end: string)
    ensures SplitFirst(s + [c] + end, [c]).Ok?
    ensures SplitFirst(s + [c] + end, [c]).value.before == UpTo(s, c)
  {
    hide UpTo, Beyond, SplitFirst;
    UpToParts(s, c);
    if c in s {
      var a, b := UpTo(s, c), Beyond(s, c);
      assert s + [c] + end == a + [c] + (b + [c] + end);
      SplitFirstAtChar(a, c, b + [c] + end);
    } else {
      SplitFirstAtChar(s, c, end);
    }
  }

  lemma {:induction false} UpToHere(a: string, c: char, b: string)
    requires c !in a
    ensures UpTo(a + [c] + b, c) == a
  {
    var s := a + [c] + b;
    if a == "" {
    } else {
      UpToHere(a[1..], c, b);
      assert s[1..] == a[1..] + [c] + b;
    }
  }

  lemma BeyondHere(c: char, s: string)
    ensures Beyond([c] + s, c) == s
  {
    assert ([c] + s)[1..] == s;
  }

  lemma BeyondExtends(s: string, c: char, more: string)
    requires c in s
    ensures Beyond(s + more, c) == Beyond(s, c) + more
  {
    hide UpTo, Beyond;
    UpToParts(s, c);
    var a, b := UpTo(s, c), Beyond(s, c);
    assert s + more == a + ([c] + (b + more));
    BeyondSkips(a, [c] + (b + more), c);
    BeyondHere(c, b + more);
  }

  lemma SplitFirstBeyond(s: string, c: char, more: string)
    requires c in s
    ensures SplitFirst(s + more, [c]) == Ok(Split(UpTo(s, c), Beyond(s, c) + more))
  {
    hide UpTo, Beyond, SplitFirst;
    UpToParts(s, c);
    var a, b := UpTo(s, c), Beyond(s, c);
    assert s + more == a + [c] + (b + more);
    SplitFirstAtChar(a, c, b + more);
  }

  // ---------------------------------------------------------------------------------------------
  // Lines
  // ---------------------------------------------------------------------------------------------

  /** What one more character in front does to the lines. */
  function Cons(c: char, lines: seq<string>): seq<string>
    requires lines != []
  {
    if c == '\n' then [""] + lines else [[c] + lines[0]] + lines[1..]
  }

  lemma SplitLinesStep(s: string)
    requires s != ""
    ensures SplitLines(s) == Cons(s[0], SplitLines(s[1..]))
  {
  }

  lemma LinesRegroup(c: char, lines: seq<string>, more: seq<string>)
    requires lines != []
    ensures Cons(c, lines + more) == Cons(c, lines) + more
  {
    assert (lines + more)[1..] == lines[1..] + more;
  }

  lemma {:induction false} SplitLinesConcat(a: string, b: string)
    ensures SplitLines(a + "\n" + b) == SplitLines(a) + SplitLines(b)
  {
    var s := a + "\n" + b;
    if a == "" {
      assert s[1..] == b;
    } else {
      SplitLinesConcat(a[1..], b);
      assert s[1..] == a[1..] + "\n" + b && s[0] == a[0];
      SplitLinesStep(s);
      SplitLinesStep(a);
      LinesRegroup(a[0], SplitLines(a[1..]), SplitLines(b));
    }
  }

  lemma {:induction false} SplitOneLine(line: string)
    requires '\n' !in line
    ensures SplitLines(line) == [line]
  {
    if line == "" {
    } else {
      SplitOneLine(line[1..]);
      assert [line[0]] + line[1..] == line;
    }
  }

  /** Every line is a part of the text, the first one at its beginning. */
  lemma {:induction false} LineInText(s: string, i: nat) returns (at: nat)
    requires i < |SplitLines(s)|
    ensures at + |SplitLines(s)[i]| <= |s| && s[at..at + |SplitLines(s)[i]|] == SplitLines(s)[i]
    ensures i == 0 ==> at == 0
  {
    if s == "" {
      at := 0;
    } else {
      SplitLinesStep(s);
      hide SplitLines;
      var lines, rest := SplitLines(s), SplitLines(s[1..]);
      if i == 0 && s[0] == '\n' {
        at := 0;
        assert lines[0] == "";
      } else if i == 0 {
        at := LineInText(s[1..], 0);
        TailSlice(s, 0, |rest[0]|);
        assert s[..1 + |rest[0]|] == [s[0]] + s[1..][..|rest[0]|];
        assert lines[0] == [s[0]] + rest[0];
      } else {
        var j: nat := if s[0] == '\n' then i - 1 else i;
        assert lines[i] == rest[j];
        var before := LineInText(s[1..], j);
        TailSlice(s, before, before + |rest[j]|);
        at := before + 1;
      }
    }
  }

  lemma TailSlice(s: string, i: nat, j: nat)
    requires s != "" && i <= j <= |s| - 1
    ensures s[1..][i..j] == s[i + 1..j + 1]
  {
    assert s[1..] == s[1..|s|];
    SliceOfSlice(s, 1, |s|, i, j);
  }

  /** What is not in a text is in none of its lines. */
  lemma LinesContainNoMore(s: string, needle: string, i: nat)
    requires i < |SplitLines(s)| && Contains(SplitLines(s)[i], needle)
    ensures Contains(s, needle)
  {
    hide SplitLines, Contains;
    var at := LineInText(s, i);
    PartContainsNoMore(s, at, SplitLines(s)[i], needle);
  }

  predicate NoBreaks(lines: seq<string>) {
    forall i | 0 <= i < |lines| :: '\n' !in lines[i]
  }

  /** Splitting undoes joining. */
  lemma {:induction false} SplitJoined(lines: seq<string>)
    requires lines != [] && NoBreaks(lines)
    ensures SplitLines(JoinLines(lines)) == lines
  {
    SplitOneLine(lines[0]);
    if |lines| <= 1 {
    } else {
      SplitJoined(lines[1..]);
      SplitLinesConcat(lines[0], JoinLines(lines[1..]));
    }
  }
}
