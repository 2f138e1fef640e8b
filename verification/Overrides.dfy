/**
 Environment overrides and the effective configuration: each override changes one path and
 keeps the type it finds there, and the label every section carries is truthful.
 */
module Overrides {
  import opened Text
  import opened Merge

  const ENV_PREFIX := "FS3_"
  const ENV_NESTING := "__"

  const SECTIONS: seq<string> :=
    ["daemon", "database", "providers", "embedder", "summarizer", "agent",
     "repos", "indexing", "scan", "search", "update", "decisions"]

  /** Reading a number out of text is a parameter. */
  datatype Numbers = Numbers(integer: string -> Option<int>, float: string -> bool)

  datatype Problem = NamesNoKey | NamesASection(section: string) | NoSuchSection(section: string)
                   | NotASection | NamesATable | WrongType

  // ----- the path an override names

  function TrimPrefixes(name: string, prefix: string): string
    requires prefix != []
  {
    if prefix <= name then TrimPrefixes(name[|prefix|..], prefix) else name
  }

  function LowerAll(s: string): string { seq(|s|, i requires 0 <= i < |s| => Lower(s[i])) }

  function Segments(parts: seq<string>): (path: seq<string>)
    ensures forall i :: 0 <= i < |path| ==> path[i] != []
  {
    if parts == [] then []
    else (if parts[0] == [] then [] else [LowerAll(parts[0])]) + Segments(parts[1..])
  }

  function PathOf(name: string): (path: seq<string>)
    ensures forall i :: 0 <= i < |path| ==> path[i] != []
  {
    Segments(Split(TrimPrefixes(name, ENV_PREFIX), ENV_NESTING))
  }

  // ----- one override

  datatype Coerced = Fits(value: Value) | Refused(problem: Problem)

  /** The value already there decides the type; anything it does not constrain is a string. */
  function Coerce(existing: Option<Value>, raw: string, numbers: Numbers): Coerced {
    match existing
    case Some(Integer(_)) =>
      var n := numbers.integer(Trim(raw));
      if n.Some? then Fits(Integer(n.value)) else Refused(WrongType)
    case Some(Boolean(_)) =>
      if Trim(raw) == "true" then Fits(Boolean(true))
      else if Trim(raw) == "false" then Fits(Boolean(false))
      else Refused(WrongType)
    case Some(Float(_)) => if numbers.float(Trim(raw)) then Fits(Float(Trim(raw))) else Refused(WrongType)
    case Some(Table(_)) => Refused(NamesATable)
    case Some(Array(_)) => Refused(NamesATable)
    case _ => Fits(Str(raw))
  }

  function Get(table: Entries, key: string): Option<Value> {
    if key in table then Some(table[key]) else None
  }

  /**
   Walk to the parent, creating the tables that are missing, and set the leaf.  The first
   component is the table as it is left, changed or not, when a problem stops the walk.
   */
  function SetPath(table: Entries, path: seq<string>, raw: string, numbers: Numbers): (Entries, Option<Problem>)
    requires path != []
    decreases |path|
  {
    if |path| == 1 then
      match Coerce(Get(table, path[0]), raw, numbers)
      case Fits(value) => (table[path[0] := value], None)
      case Refused(problem) => (table, Some(problem))
    else
      var entry := if path[0] in table then table[path[0]] else Table(map[]);
      if !entry.Table? then (table[path[0] := entry], Some(NotASection))
      else
        var (inner, problem) := SetPath(entry.entries, path[1..], raw, numbers);
        (table[path[0] := Table(inner)], problem)
  }

  datatype Applied = Touched(section: string) | Failed(problem: Problem)

  function ApplyOverride(merged: Entries, name: string, raw: string, numbers: Numbers): (Entries, Applied) {
    var path := PathOf(name);
    if path == [] then (merged, Failed(NamesNoKey))
    else if |path| == 1 then (merged, Failed(NamesASection(path[0])))
    else if path[0] !in SECTIONS then (merged, Failed(NoSuchSection(path[0])))
    else
      var (table, problem) := SetPath(merged, path, raw, numbers);
      (table, if problem.Some? then Failed(problem.value) else Touched(path[0]))
  }

  /** A refused override leaves the table exactly as it was. */
  lemma {:induction false} RefusalChangesNothing(table: Entries, path: seq<string>, raw: string, numbers: Numbers)
    requires path != [] && SetPath(table, path, raw, numbers).1.Some?
    ensures SetPath(table, path, raw, numbers).0 == table
    ensures path[0] in table
    decreases |path|
  {
    if |path| > 1 {
      if path[0] in table {
        if table[path[0]].Table? {
          RefusalChangesNothing(table[path[0]].entries, path[1..], raw, numbers);
        }
      } else {
        FreshPathsAreAccepted(path[1..], raw, numbers);
      }
    }
  }

  lemma {:induction false} FreshPathsAreAccepted(path: seq<string>, raw: string, numbers: Numbers)
    requires path != []
    ensures SetPath(map[], path, raw, numbers).1.None?
    decreases |path|
  {
    if |path| > 1 {
      FreshPathsAreAccepted(path[1..], raw, numbers);
    }
  }

  predicate SameType(a: Value, b: Value) {
    (a.Integer? ==> b.Integer?) && (a.Boolean? ==> b.Boolean?) && (a.Float? ==> b.Float?)
  }

  /** Whether a scalar is what the text says, read as the type the scalar has. */
  predicate IsReadingOf(value: Value, raw: string, numbers: Numbers) {
    match value
    case Integer(n) => numbers.integer(Trim(raw)) == Some(n)
    case Boolean(flag) => Trim(raw) == if flag then "true" else "false"
    case Float(literal) => literal == Trim(raw) && numbers.float(literal)
    case Str(text) => text == raw
    case _ => false
  }

  /**
   An accepted override leaves the text's value at its path: read as the integer, boolean or
   float that was there, or the text itself where nothing was; and tables on the way to it.
   */
  lemma {:induction false} OverrideSetsItsPath(table: Entries, path: seq<string>, raw: string, numbers: Numbers,
                                               at: nat)
    requires path != [] && SetPath(table, path, raw, numbers).1.None? && at < |path|
    ensures var (before, after) := (Table(table), Table(SetPath(table, path, raw, numbers).0));
            && Lookup(after, path).Some? && IsReadingOf(Lookup(after, path).value, raw, numbers)
            && (if Lookup(before, path).None? then Lookup(after, path) == Some(Str(raw))
                else IsLeaf(Lookup(before, path)) && SameType(Lookup(before, path).value, Lookup(after, path).value))
            && Lookup(after, path[..at]).Some? && Lookup(after, path[..at]).value.Table?
    decreases |path|
  {
    if |path| == 1 {
      var after := SetPath(table, path, raw, numbers).0;
      assert path[1..] == [] && path[..at] == [];
      assert Lookup(Table(table), path) == Get(table, path[0]) && Lookup(Table(after), path) == Some(after[path[0]]);
    } else {
      var entry := if path[0] in table then table[path[0]] else Table(map[]);
      OverrideSetsItsPath(entry.entries, path[1..], raw, numbers, if at == 0 then 0 else at - 1);
      if at > 0 {
        assert path[..at][1..] == path[1..][..at - 1];
      }
    }
  }

  /** No path that is neither above nor below its own reads differently. */
  lemma {:induction false} OverrideIsLocal(table: Entries, path: seq<string>, raw: string, numbers: Numbers,
                                           other: seq<string>)
    requires path != [] && !(path <= other) && !(other <= path)
    ensures Lookup(Table(SetPath(table, path, raw, numbers).0), other) == Lookup(Table(table), other)
    decreases |path|
  {
    if other[0] == path[0] && |path| > 1 {
      var entry := if path[0] in table then table[path[0]] else Table(map[]);
      if entry.Table? {
        assert path <= other <==> path[1..] <= other[1..];
        assert other <= path <==> other[1..] <= path[1..];
        OverrideIsLocal(entry.entries, path[1..], raw, numbers, other[1..]);
      }
    }
  }

  // ----- the effective configuration

  datatype Layer = FromDefaults | FromFile | FromEnv

  datatype Sources = Sources(fileText: Option<string>, env: seq<(string, string)>)

  /** What the merge needs from outside: TOML text, the default tables, the typed shape and its validation. */
  datatype Shape<!C> = Shape(parse: string -> Option<Entries>, defaults: Entries, numbers: Numbers,
                             decode: Entries -> Option<C>, validate: C -> bool)

  datatype Outcome<C> =
    | Effective(config: C, layers: map<string, Layer>, hasFile: bool)
    | NotToml
    | BadOverrides(problems: seq<Problem>)
    | WrongShape
    | Invalid

  function Known(file: Entries): Entries { map k | k in file && k in SECTIONS :: file[k] }

  /** What a run of overrides leaves: the table, the sections touched and the problems, in order. */
  datatype Overridden = Overridden(table: Entries, touched: seq<string>, problems: seq<Problem>)

  /** What one override does to a table. */
  type Effect = (Entries, string, string) -> (Entries, Applied)

  /** What the first `n` overrides leave. */
  function RunBy(effect: Effect, table: Entries, env: seq<(string, string)>, n: nat): Overridden
    requires n <= |env|
  {
    if n == 0 then Overridden(table, [], [])
    else
      var before := RunBy(effect, table, env, n - 1);
      var (after, applied) := effect(before.table, env[n - 1].0, env[n - 1].1);
      match applied
      case Touched(section) => before.(table := after, touched := before.touched + [section])
      case Failed(problem) => before.(table := after, problems := before.problems + [problem])
  }

  function EffectBy(numbers: Numbers): Effect {
    (table: Entries, name: string, raw: string) => ApplyOverride(table, name, raw, numbers)
  }

  function RunOverrides(table: Entries, env: seq<(string, string)>, numbers: Numbers): Overridden {
    RunBy(EffectBy(numbers), table, env, |env|)
  }

  /** The last layer that said anything about a section. */
  function LayerOf(section: string, touched: seq<string>, file: Entries): Layer {
    if section in touched then FromEnv else if section in file then FromFile else FromDefaults
  }

  method ApplyAll(table: Entries, env: seq<(string, string)>, numbers: Numbers) returns (o: Overridden)
    ensures o == RunOverrides(table, env, numbers)
  {
    o := Overridden(table, [], []);
    for i := 0 to |env|
      invariant o == RunBy(EffectBy(numbers), table, env, i)
    {
      var (name, raw) := env[i];
      var (after, applied) := ApplyOverride(o.table, name, raw, numbers);
      match applied {
        case Touched(section) => o := o.(table := after, touched := o.touched + [section]);
        case Failed(problem) => o := o.(table := after, problems := o.problems + [problem]);
      }
    }
  }

  /** Every known section gets a label; every other section of the file is labelled too, as ignored file content. */
  ghost predicate Labelled(layers: map<string, Layer>, touched: seq<string>, file: Entries) {
    && (forall s :: s in layers <==> s in SECTIONS || s in file)
    && (forall s :: s in layers ==> layers[s] == if s in SECTIONS then LayerOf(s, touched, file) else FromFile)
  }

  method LabelSections(touched: seq<string>, file: Entries) returns (layers: map<string, Layer>)
    ensures Labelled(layers, touched, file)
  {
    layers := map[];
    var known := Known(file);
    for i := 0 to |SECTIONS|
      invariant forall s :: s in layers <==> s in SECTIONS[..i]
      invariant forall s :: s in layers ==> layers[s] == LayerOf(s, touched, file)
    {
      var section := SECTIONS[i];
      assert SECTIONS[..i + 1] == SECTIONS[..i] + [section] && section in SECTIONS;
      var layer := if section in touched then FromEnv else if section in known then FromFile else FromDefaults;
      layers := layers[section := layer];
    }
    assert SECTIONS[..|SECTIONS|] == SECTIONS;
    layers := layers + map s | s in file && s !in SECTIONS :: FromFile;
  }

  /**
   Merge the layers, apply the overrides, and label every section with the layer it came from.
   A file that is not there counts as an empty one.
   */
  method Resolve<C>(sources: Sources, shape: Shape<C>) returns (outcome: Outcome<C>)
    ensures match if sources.fileText.Some? then shape.parse(sources.fileText.value) else Some(map[])
            case None => outcome == NotToml
            case Some(file) =>
              var o := RunOverrides(Merged(shape.defaults, Table(Known(file))), sources.env, shape.numbers);
              var config := shape.decode(o.table);
              if o.problems != [] then outcome == BadOverrides(o.problems)
              else if config.None? then outcome == WrongShape
              else if !shape.validate(config.value) then outcome == Invalid
              else outcome.Effective? && outcome.config == config.value
                   && outcome.hasFile == sources.fileText.Some?
                   && Labelled(outcome.layers, o.touched, file)
  {
    var file: Option<Entries> := Some(map[]);
    if sources.fileText.Some? {
      file := shape.parse(sources.fileText.value);
    }
    if file.None? {
      return NotToml;
    }
    var table := MergeTables(shape.defaults, Table(Known(file.value)));
    var o := ApplyAll(table, sources.env, shape.numbers);
    if o.problems != [] {
      return BadOverrides(o.problems);
    }
    var config := shape.decode(o.table);
    if config.None? {
      return WrongShape;
    }
    if !shape.validate(config.value) {
      return Invalid;
    }
    var layers := LabelSections(o.touched, file.value);
    outcome := Effective(config.value, layers, sources.fileText.Some?);
  }

  // ----- the labels are truthful

  /** Whether a section reads the same in two tables, or is absent from both. */
  predicate Agree(a: Entries, b: Entries, section: string) { Get(a, section) == Get(b, section) }

  lemma SetPathTouchesOneSection(table: Entries, path: seq<string>, raw: string, numbers: Numbers, section: string)
    requires path != [] && section != path[0]
    ensures Agree(SetPath(table, path, raw, numbers).0, table, section)
  {
  }

  /** An override that does not set something in a section leaves it alone, refused or not. */
  lemma OtherSectionsAgree(table: Entries, name: string, raw: string, numbers: Numbers, section: string)
    requires ApplyOverride(table, name, raw, numbers).1 != Touched(section)
    ensures Agree(ApplyOverride(table, name, raw, numbers).0, table, section)
  {
    var path := PathOf(name);
    if |path| > 1 && path[0] in SECTIONS {
      if SetPath(table, path, raw, numbers).1.Some? {
        RefusalChangesNothing(table, path, raw, numbers);
      } else {
        SetPathTouchesOneSection(table, path, raw, numbers, section);
      }
    }
  }

  /** Whether override `i` of a run set something in a section. */
  predicate SetAt(effect: Effect, table: Entries, env: seq<(string, string)>, section: string, i: nat)
    requires i < |env|
  {
    effect(RunBy(effect, table, env, i).table, env[i].0, env[i].1).1 == Touched(section)
  }

  /** Whether the overrides from `from` on leave a section alone. */
  predicate AloneFrom(effect: Effect, table: Entries, env: seq<(string, string)>, section: string, from: nat) {
    forall j :: from <= j < |env| ==> !SetAt(effect, table, env, section, j)
  }

  /** An effect changes no section but the one it touches. */
  ghost predicate KeepsToSections(effect: Effect) {
    forall table, name, raw, section ::
      effect(table, name, raw).1 != Touched(section) ==> Agree(effect(table, name, raw).0, table, section)
  }

  lemma OverridesKeepToSections(numbers: Numbers)
    ensures KeepsToSections(EffectBy(numbers))
  {
    var effect := EffectBy(numbers);
    forall table, name, raw, section | effect(table, name, raw).1 != Touched(section)
      ensures Agree(effect(table, name, raw).0, table, section)
    {
      OtherSectionsAgree(table, name, raw, numbers, section);
    }
  }

  /** A section reads on as it did before overrides that leave it alone, and is touched only if it was. */
  lemma {:induction false} AloneSectionsAgree(effect: Effect, table: Entries, env: seq<(string, string)>,
                                              section: string, from: nat, n: nat)
    requires KeepsToSections(effect) && from <= n <= |env| && AloneFrom(effect, table, env, section, from)
    ensures Agree(RunBy(effect, table, env, n).table, RunBy(effect, table, env, from).table, section)
    ensures section in RunBy(effect, table, env, n).touched <==> section in RunBy(effect, table, env, from).touched
    decreases n - from
  {
    if from < n {
      assert !SetAt(effect, table, env, section, n - 1);
      AloneSectionsAgree(effect, table, env, section, from, n - 1);
    }
  }

  /** A section some override set was set last by one of them. */
  lemma {:induction false} LastSet(effect: Effect, table: Entries, env: seq<(string, string)>, section: string,
                                   from: nat)
    returns (i: nat)
    requires from <= |env| && !AloneFrom(effect, table, env, section, from)
    ensures from <= i < |env| && SetAt(effect, table, env, section, i) && AloneFrom(effect, table, env, section, i + 1)
    decreases |env| - from
  {
    if AloneFrom(effect, table, env, section, from + 1) {
      i := from;
    } else {
      i := LastSet(effect, table, env, section, from + 1);
    }
  }

  lemma SetTouches(effect: Effect, table: Entries, env: seq<(string, string)>, section: string, i: nat)
    requires i < |env| && SetAt(effect, table, env, section, i)
    ensures section in RunBy(effect, table, env, i + 1).touched
  {
  }

  /** Touched means set by some override. */
  lemma TouchedExactlyWhenSet(effect: Effect, table: Entries, env: seq<(string, string)>, section: string)
    requires KeepsToSections(effect)
    ensures section in RunBy(effect, table, env, |env|).touched <==> !AloneFrom(effect, table, env, section, 0)
  {
    if AloneFrom(effect, table, env, section, 0) {
      AloneSectionsAgree(effect, table, env, section, 0, |env|);
    } else {
      var i := LastSet(effect, table, env, section, 0);
      SetTouches(effect, table, env, section, i);
      AloneSectionsAgree(effect, table, env, section, i + 1, |env|);
    }
  }

  lemma AgreeingSectionsReadAlike(a: Entries, b: Entries, path: seq<string>)
    requires path != [] && Agree(a, b, path[0])
    ensures Lookup(Table(a), path) == Lookup(Table(b), path)
  {
  }

  /** An accepted override names a path inside the section it touches, and leaves its text's value there. */
  lemma AcceptedOverrideSets(table: Entries, name: string, raw: string, numbers: Numbers, section: string)
    requires ApplyOverride(table, name, raw, numbers).1 == Touched(section)
    ensures |PathOf(name)| > 1 && PathOf(name)[0] == section
    ensures var read := Lookup(Table(ApplyOverride(table, name, raw, numbers).0), PathOf(name));
            read.Some? && IsReadingOf(read.value, raw, numbers)
  {
    OverrideSetsItsPath(table, PathOf(name), raw, numbers, 0);
  }

  /** What an Env label stands for: the last override of the section, whose value is the one in effect. */
  ghost predicate FromOverride(table: Entries, env: seq<(string, string)>, numbers: Numbers, section: string, i: nat) {
    && i < |env| && SetAt(EffectBy(numbers), table, env, section, i)
    && AloneFrom(EffectBy(numbers), table, env, section, i + 1)
    && |PathOf(env[i].0)| > 1 && PathOf(env[i].0)[0] == section
    && var read := Lookup(Table(RunOverrides(table, env, numbers).table), PathOf(env[i].0));
       read.Some? && IsReadingOf(read.value, env[i].1, numbers)
  }

  lemma LastSetIsInEffect(table: Entries, env: seq<(string, string)>, numbers: Numbers, section: string, i: nat)
    requires i < |env| && SetAt(EffectBy(numbers), table, env, section, i)
    requires AloneFrom(EffectBy(numbers), table, env, section, i + 1)
    ensures FromOverride(table, env, numbers, section, i)
  {
    var effect := EffectBy(numbers);
    AcceptedOverrideSets(RunBy(effect, table, env, i).table, env[i].0, env[i].1, numbers, section);
    OverridesKeepToSections(numbers);
    AloneSectionsAgree(effect, table, env, section, i + 1, |env|);
    var (after, last) := (RunOverrides(table, env, numbers).table, RunBy(effect, table, env, i + 1).table);
    AgreeingSectionsReadAlike(after, last, PathOf(env[i].0));
  }

  /**
   Provenance: a section labelled Defaults has its default value, untouched by the file and by
   every override; one labelled File is the file's merged onto the default and no override
   touched it; one labelled Env holds, at a path inside it, the value an override's text says.
   */
  lemma LabelsAreTruthful(defaults: Entries, file: Entries, env: seq<(string, string)>, numbers: Numbers,
                          section: string)
    requires section in SECTIONS
    ensures var base := Merged(defaults, Table(Known(file)));
            var o := RunOverrides(base, env, numbers);
            match LayerOf(section, o.touched, file)
            case FromDefaults =>
              && section !in file && Agree(o.table, defaults, section)
              && AloneFrom(EffectBy(numbers), base, env, section, 0)
            case FromFile =>
              && section in file && AloneFrom(EffectBy(numbers), base, env, section, 0)
              && Get(o.table, section) == Some(if section in defaults then Combine(defaults[section], file[section])
                                               else file[section])
            case FromEnv => exists i: nat :: FromOverride(base, env, numbers, section, i)
  {
    var base, effect := Merged(defaults, Table(Known(file))), EffectBy(numbers);
    OverridesKeepToSections(numbers);
    TouchedExactlyWhenSet(effect, base, env, section);
    if AloneFrom(effect, base, env, section, 0) {
      AloneSectionsAgree(effect, base, env, section, 0, |env|);
    } else {
      var i := LastSet(effect, base, env, section, 0);
      LastSetIsInEffect(base, env, numbers, section, i);
    }
  }
}
