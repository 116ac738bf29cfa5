/**
 * Predicates over log entries: by level, by pattern, by file, by component,
 * and all-of / any-of combinations. A regular expression is an abstract
 * matcher `isMatch(source, text)`, where `source` is the expression's text.
 */
module Filters {
  import opened Common
  import opened Entries

  datatype FilterMode = And | Or

  datatype Filter =
    | LevelFilter(minLevel: LogLevel)
    | PatternFilter(source: string, caseSensitive: bool)
    | FileFilter(filePattern: string)
    | ComponentFilter(component: LogComponent)
    | CompositeFilter(filters: seq<Filter>, mode: FilterMode)

  /** A regular-expression engine, reduced to what the filters use. */
  type Matcher = (string, string) -> bool

  /** `PatternFilter::new`: the expression is compiled as given when
      case-sensitive, and behind the inline flag `(?i)` otherwise; an
      expression that does not compile is an error. */
  function NewPatternFilter(pattern: string, caseSensitive: bool, compiles: string -> bool): (r: Result<Filter, string>)
    ensures r.Ok? <==> compiles(if caseSensitive then pattern else "(?i)" + pattern)
    ensures r.Ok? ==> r.value.PatternFilter? && r.value.caseSensitive == caseSensitive
    ensures r.Ok? && caseSensitive ==> r.value.source == pattern
    ensures r.Ok? && !caseSensitive ==> StripPrefix(r.value.source, "(?i)") == Some(pattern)
  {
    var source := if caseSensitive then pattern else "(?i)" + pattern;
    if compiles(source) then Ok(PatternFilter(source, caseSensitive)) else Err("invalid regex")
  }

  /** `FileFilter::new`. */
  function NewFileFilter(pattern: string, compiles: string -> bool): (r: Result<Filter, string>)
    ensures r.Ok? <==> compiles(pattern)
    ensures r.Ok? ==> r.value == FileFilter(pattern)
  {
    if compiles(pattern) then Ok(FileFilter(pattern)) else Err("invalid regex")
  }

  /** `LogFilter::matches`. */
  function Matches(f: Filter, e: LogEntry, isMatch: Matcher): (b: bool)
    decreases f
  {
    match f
    case LevelFilter(minLevel) => LevelLe(minLevel, e.level)
    case PatternFilter(source, _) => isMatch(source, e.message) || isMatch(source, e.rawLine)
    case FileFilter(pattern) => e.filePath.Some? && isMatch(pattern, e.filePath.value)
    case ComponentFilter(c) => e.component == c
    case CompositeFilter(fs, And) => forall i :: 0 <= i < |fs| ==> Matches(fs[i], e, isMatch)
    case CompositeFilter(fs, Or) => exists i :: 0 <= i < |fs| && Matches(fs[i], e, isMatch)
  }

  /** What each kind of filter accepts. A file filter never accepts an
      entry without a file; an empty all-of accepts everything and an empty
      any-of accepts nothing. */
  lemma MatchesCases(f: Filter, e: LogEntry, isMatch: Matcher)
    ensures f.LevelFilter? ==> (Matches(f, e, isMatch) <==> Severity(e.level) >= Severity(f.minLevel))
    ensures f.FileFilter? && e.filePath.None? ==> !Matches(f, e, isMatch)
    ensures f.ComponentFilter? ==> (Matches(f, e, isMatch) <==> e.component == f.component)
    ensures f == CompositeFilter([], And) ==> Matches(f, e, isMatch)
    ensures f == CompositeFilter([], Or) ==> !Matches(f, e, isMatch)
  {
  }

  /** A level filter for `Fatal` passes only fatal entries; one for `Debug`
      passes everything. */
  lemma LevelFilterBounds(e: LogEntry, isMatch: Matcher)
    ensures Matches(LevelFilter(Debug), e, isMatch)
    ensures Matches(LevelFilter(Fatal), e, isMatch) <==> e.level == Fatal
  {
  }

  /** Splitting the members of a composite into two composites of the same
      mode changes nothing: all-of and any-of are associative. */
  lemma CompositeRegroup(fs: seq<Filter>, k: nat, mode: FilterMode, e: LogEntry, isMatch: Matcher)
    requires k <= |fs|
    ensures Matches(CompositeFilter(fs, mode), e, isMatch)
        <==> Matches(CompositeFilter([CompositeFilter(fs[..k], mode), CompositeFilter(fs[k..], mode)], mode), e, isMatch)
  {
    var a := CompositeFilter(fs[..k], mode);
    var b := CompositeFilter(fs[k..], mode);
    var pair := [a, b];
    assert pair[0] == a && pair[1] == b;
    if mode == And {
      if Matches(a, e, isMatch) && Matches(b, e, isMatch) {
        forall i | 0 <= i < |fs|
          ensures Matches(fs[i], e, isMatch)
        {
          if i < k {
            assert fs[..k][i] == fs[i];
          } else {
            assert fs[k..][i - k] == fs[i];
          }
        }
      }
    } else {
      if Matches(CompositeFilter(fs, mode), e, isMatch) {
        var i :| 0 <= i < |fs| && Matches(fs[i], e, isMatch);
        if i < k {
          assert fs[..k][i] == fs[i];
          assert Matches(pair[0], e, isMatch);
        } else {
          assert fs[k..][i - k] == fs[i];
          assert Matches(pair[1], e, isMatch);
        }
      }
    }
  }

  /** A composite of one member behaves as that member. */
  lemma CompositeSingleton(f: Filter, mode: FilterMode, e: LogEntry, isMatch: Matcher)
    ensures Matches(CompositeFilter([f], mode), e, isMatch) == Matches(f, e, isMatch)
  {
    assert [f][0] == f;
  }

  /** The text Rust's `{:?}` gives a component. String escapes inside
      `Other` are not modelled. */
  function ComponentDebug(c: LogComponent): string
  {
    match c
    case CMake => "CMake"
    case Compiler => "Compiler"
    case Linker => "Linker"
    case Build => "Build"
    case Other(name) => "Other(\"" + name + "\")"
  }

  /** Different components print differently, so a component filter's
      description names its component unambiguously. */
  lemma ComponentDebugInjective(a: LogComponent, b: LogComponent)
    ensures ComponentDebug(a) == ComponentDebug(b) <==> a == b
  {
    if ComponentDebug(a) == ComponentDebug(b) {
      var s := ComponentDebug(a);
      if a.Other? && b.Other? {
        assert a.name == s[7..|s| - 2];
        assert b.name == s[7..|s| - 2];
      }
    }
  }

  function ModeWord(mode: FilterMode): string
  {
    match mode
    case And => "AND"
    case Or => "OR"
  }

  /** `LogFilter::description`. */
  function Description(f: Filter): (d: string)
    decreases f
  {
    match f
    case LevelFilter(minLevel) => "level >= " + LevelName(minLevel)
    case PatternFilter(source, cs) =>
      "pattern: " + source + " (" + (if cs then "case-sensitive" else "case-insensitive") + ")"
    case FileFilter(pattern) => "file matches: " + pattern
    case ComponentFilter(c) => "component: " + ComponentDebug(c)
    case CompositeFilter(fs, mode) =>
      "(" + Join(seq(|fs|, i requires 0 <= i < |fs| => Description(fs[i])), " " + ModeWord(mode) + " ") + ")"
  }

  /** A composite's description is parenthesised, and its members'
      descriptions follow one another separated by the mode word: for two
      members, "(a AND b)"; for none, "()". */
  lemma CompositeDescription(f: Filter, g: Filter, mode: FilterMode)
    ensures Description(CompositeFilter([], mode)) == "()"
    ensures Description(CompositeFilter([f], mode)) == "(" + Description(f) + ")"
    ensures Description(CompositeFilter([f, g], mode))
         == "(" + Description(f) + " " + ModeWord(mode) + " " + Description(g) + ")"
  {
    assert Description(CompositeFilter([], mode)) == "(" + Join([], " " + ModeWord(mode) + " ") + ")";
    SingleMemberDescription(f, mode);
    TwoMemberDescription(f, g, mode);
  }

  lemma SingleMemberDescription(f: Filter, mode: FilterMode)
    ensures Description(CompositeFilter([f], mode)) == "(" + Description(f) + ")"
  {
    var one := seq(1, i requires 0 <= i < 1 => Description([f][i]));
    assert one == [Description(f)];
    assert Join(one, " " + ModeWord(mode) + " ") == Description(f);
  }

  lemma TwoMemberDescription(f: Filter, g: Filter, mode: FilterMode)
    ensures Description(CompositeFilter([f, g], mode))
         == "(" + Description(f) + " " + ModeWord(mode) + " " + Description(g) + ")"
  {
    var two := seq(2, i requires 0 <= i < 2 => Description([f, g][i]));
    assert two == [Description(f), Description(g)];
    assert two[1..] == [Description(g)];
    var sep := " " + ModeWord(mode) + " ";
    assert Join(two, sep) == Description(f) + sep + Description(g);
    assert Description(CompositeFilter([f, g], mode)) == "(" + Join(two, sep) + ")";
    Regroup("(", Description(f), " ", ModeWord(mode), " ", Description(g), ")");
  }

  lemma Regroup<T>(p: seq<T>, x: seq<T>, s1: seq<T>, m: seq<T>, s2: seq<T>, y: seq<T>, q: seq<T>)
    ensures p + (x + (s1 + m + s2) + y) + q == p + x + s1 + m + s2 + y + q
  {
    ConcatAssoc(p, x + (s1 + m + s2), y);
    ConcatAssoc(p, x, s1 + m + s2);
    ConcatAssoc(p + x, s1 + m, s2);
    ConcatAssoc(p + x, s1, m);
  }

  /** The level filter's description names the level in upper case. */
  lemma LevelDescription(l: LogLevel)
    ensures StripPrefix(Description(LevelFilter(l)), "level >= ") == Some(LevelName(l))
    ensures LevelFromName(Description(LevelFilter(l))[|"level >= "|..]) == Some(l)
  {
    var d := Description(LevelFilter(l));
    assert d[|"level >= "|..] == LevelName(l);
    LevelNameRoundTrip(l);
  }
}
