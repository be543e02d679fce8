/**
 * The two migration writers: the model migration written with a new model,
 * and the standalone migration whose up and down steps are derived from an
 * `Add...To<Table>` or `Remove...From<Table>` name. Each takes a template,
 * substitutes the sentinel markers (`!UP!`, `!DOWN!`, `!NAME!`, `!TABLE!`,
 * `!FILENAME!`, `!FILECLASS!`, `!FIELDS!`, `!VERSION!`, `!COLUMNS!`) in a fixed
 * order, and names the file after the next migration version.
 *
 * The inflections of the host framework and the per-column formatters of the
 * ORM component are parameters; the file is returned instead of written, and
 * the migrations directory is given as the list of its base names.
 */
module MigrationWriter {
  import opened Wrappers
  import opened RubyText
  import opened MigrationNumbering
  import opened FieldSpecs
  import opened MigrationNamer

  /** The string inflections the writers call, as the host framework defines them. */
  datatype Inflections = Inflections(pluralize: string -> string, camelize: string -> string, underscore: string -> string)

  /** The options of `output_model_migration`: the template, the up and down fragments, the column formatter. */
  datatype ModelTemplates = ModelTemplates(base: string, up: string, down: string, columnFormat: FieldSpec -> string)

  /** The options of `output_migration_file`: the template, the change block, the add and remove formatters. */
  datatype ChangeTemplates = ChangeTemplates(base: string, changeFormat: string, add: FieldSpec -> string, remove: FieldSpec -> string)

  /** A migration file the generator creates under `db/migrate`. */
  datatype MigrationFile = MigrationFile(name: string, contents: string)

  // ------------------------------------------------------------------ markers

  /**
   * A marker pattern: `indent` characters of `\s`, then `!word!`, then a line
   * feed when `newline` holds (`/\s{4}!UP!\n/` is `Marker(4, "UP", true)`).
   */
  datatype Marker = Marker(indent: nat, word: string, newline: bool)

  function MarkerText(word: string): string {
    "!" + word + "!"
  }

  function PatternOf(k: Marker): (p: Pattern)
    ensures |p| == k.indent + |k.word| + 2 + (if k.newline then 1 else 0)
  {
    seq(k.indent, _ => Whitespace) + Literal(MarkerText(k.word)) + (if k.newline then Literal("\n") else [])
  }

  /** Position by position, what a marker pattern asks for. */
  lemma PatternShape(k: Marker)
    ensures var p := PatternOf(k);
      (forall j :: 0 <= j < k.indent ==> p[j] == Whitespace) &&
      p[k.indent] == Exactly('!') && p[k.indent + |k.word| + 1] == Exactly('!') &&
      (forall j :: 0 <= j < |k.word| ==> p[k.indent + 1 + j] == Exactly(k.word[j])) &&
      (k.newline ==> p[|p| - 1] == Exactly('\n'))
  {
    assert forall j :: 0 <= j < |k.word| ==> MarkerText(k.word)[1 + j] == k.word[j];
  }

  const Up := Marker(4, "UP", true)
  const ModelDown := Marker(0, "DOWN", true)
  const Down := Marker(4, "DOWN", true)
  const Name := Marker(0, "NAME", false)
  const Table := Marker(0, "TABLE", false)
  const FileName := Marker(0, "FILENAME", false)
  const FileClass := Marker(0, "FILECLASS", false)
  const FieldsMarker := Marker(0, "FIELDS", false)
  const Version := Marker(0, "VERSION", false)
  const Columns := Marker(0, "COLUMNS", false)

  /** One `gsub` of a writer: a marker and the text that replaces it. */
  datatype Substitution = Substitution(marker: Marker, replacement: string)

  /** The substitutions applied one after the other, each to the result of the one before. */
  function SubstituteAll(s: string, subs: seq<Substitution>): string
    decreases |subs|
  {
    if subs == [] then s
    else SubstituteAll(Gsub(s, PatternOf(subs[0].marker), subs[0].replacement), subs[1..])
  }

  lemma Unfold(s: string, subs: seq<Substitution>)
    requires |subs| > 0
    ensures SubstituteAll(s, subs) == SubstituteAll(Gsub(s, PatternOf(subs[0].marker), subs[0].replacement), subs[1..])
  {
  }

  lemma SubstituteEight(s: string, subs: seq<Substitution>)
    requires |subs| == 8
    ensures SubstituteAll(s, subs) ==
      Gsub(Gsub(Gsub(Gsub(Gsub(Gsub(Gsub(Gsub(s,
        PatternOf(subs[0].marker), subs[0].replacement),
        PatternOf(subs[1].marker), subs[1].replacement),
        PatternOf(subs[2].marker), subs[2].replacement),
        PatternOf(subs[3].marker), subs[3].replacement),
        PatternOf(subs[4].marker), subs[4].replacement),
        PatternOf(subs[5].marker), subs[5].replacement),
        PatternOf(subs[6].marker), subs[6].replacement),
        PatternOf(subs[7].marker), subs[7].replacement)
  {
    var s1 := Gsub(s, PatternOf(subs[0].marker), subs[0].replacement);
    var s2 := Gsub(s1, PatternOf(subs[1].marker), subs[1].replacement);
    var s3 := Gsub(s2, PatternOf(subs[2].marker), subs[2].replacement);
    var s4 := Gsub(s3, PatternOf(subs[3].marker), subs[3].replacement);
    var s5 := Gsub(s4, PatternOf(subs[4].marker), subs[4].replacement);
    var s6 := Gsub(s5, PatternOf(subs[5].marker), subs[5].replacement);
    var s7 := Gsub(s6, PatternOf(subs[6].marker), subs[6].replacement);
    Unfold(s, subs);
    Unfold(s1, subs[1..]);
    Unfold(s2, subs[2..]);
    Unfold(s3, subs[3..]);
    Unfold(s4, subs[4..]);
    Unfold(s5, subs[5..]);
    Unfold(s6, subs[6..]);
    Unfold(s7, subs[7..]);
    assert subs[1..][1..] == subs[2..];
    assert subs[2..][1..] == subs[3..];
    assert subs[3..][1..] == subs[4..];
    assert subs[4..][1..] == subs[5..];
    assert subs[5..][1..] == subs[6..];
    assert subs[6..][1..] == subs[7..];
    assert subs[7..][1..] == [];
  }

  // ----------------------------------------------------------- model migration

  /** The split tuples in an array that the datetime fix then rewrites in place (`collect!`). */
  method FixedTuples(parsed: seq<FieldSpec>) returns (tuples: seq<FieldSpec>)
    ensures tuples == FixAll(parsed)
  {
    var a := new FieldSpec[|parsed|](k requires 0 <= k < |parsed| => parsed[k]);
    assert a[..] == parsed;
    FixDatetimeInPlace(a);
    tuples := a[..];
  }

  /** The column declarations that replace `!FIELDS!`. */
  function ColumnDeclarations(fields: seq<string>, format: FieldSpec -> string): string {
    Join(Render(NormalizedFields(fields), format), "\n      ")
  }

  /** The substitutions of `output_model_migration`, in the order it makes them. */
  function ModelSubstitutions(filename: string, name: string, fields: seq<string>, t: ModelTemplates,
                              inf: Inflections, version: nat): seq<Substitution>
  {
    var modelName := inf.pluralize(name);
    [Substitution(Up, t.up),
     Substitution(ModelDown, t.down),
     Substitution(Name, inf.camelize(modelName)),
     Substitution(Table, inf.underscore(modelName)),
     Substitution(FileName, inf.underscore(filename)),
     Substitution(FileClass, inf.camelize(filename)),
     Substitution(FieldsMarker, ColumnDeclarations(fields, t.columnFormat)),
     Substitution(Version, IntToS(version))]
  }

  lemma ModelSubstitutionsInOrder(s: string, filename: string, name: string, fields: seq<string>,
                                  t: ModelTemplates, inf: Inflections, version: nat)
    ensures SubstituteAll(s, ModelSubstitutions(filename, name, fields, t, inf, version)) ==
      Gsub(Gsub(Gsub(Gsub(Gsub(Gsub(Gsub(Gsub(s,
        PatternOf(Up), t.up),
        PatternOf(ModelDown), t.down),
        PatternOf(Name), inf.camelize(inf.pluralize(name))),
        PatternOf(Table), inf.underscore(inf.pluralize(name))),
        PatternOf(FileName), inf.underscore(filename)),
        PatternOf(FileClass), inf.camelize(filename)),
        PatternOf(FieldsMarker), ColumnDeclarations(fields, t.columnFormat)),
        PatternOf(Version), IntToS(version))
  {
    SubstituteEight(s, ModelSubstitutions(filename, name, fields, t, inf, version));
  }

  /**
   * The column lines of `output_model_migration`: the tokens split into
   * pairs, the pairs fixed in place, each formatted and the lines joined.
   */
  method ColumnDeclarationsOf(fields: seq<string>, columnFormat: FieldSpec -> string) returns (text: string)
    ensures text == ColumnDeclarations(fields, columnFormat)
  {
    var fieldTuples := FixedTuples(ParseTokens(fields));
    text := Join(Render(fieldTuples, columnFormat), "\n      ");
  }

  /**
   * `output_model_migration`. Its `columns` parameter is not read: the field
   * list comes from the generator's `fields`. Every existing base name must
   * start with a digit, or reading its number fails.
   */
  method OutputModelMigration(filename: string, name: string, columns: seq<string>, fields: seq<string>,
                              t: ModelTemplates, inf: Inflections, existing: seq<string>)
    returns (file: MigrationFile)
    requires forall k :: 0 <= k < |existing| ==> StartsWithDigit(existing[k])
    ensures file.name == MigrationFileName(NextVersion(existing), inf.underscore(filename))
    ensures file.contents == SubstituteAll(t.base, ModelSubstitutions(filename, name, fields, t, inf, NextVersion(existing)))
  {
    var modelName := inf.pluralize(name);
    var columnDeclarations := ColumnDeclarationsOf(fields, t.columnFormat);
    var contents := Gsub(t.base, PatternOf(Up), t.up);
    contents := Gsub(contents, PatternOf(ModelDown), t.down);
    contents := Gsub(contents, PatternOf(Name), inf.camelize(modelName));
    contents := Gsub(contents, PatternOf(Table), inf.underscore(modelName));
    contents := Gsub(contents, PatternOf(FileName), inf.underscore(filename));
    contents := Gsub(contents, PatternOf(FileClass), inf.camelize(filename));
    var currentMigrationNumber := MaxVersion(existing);
    contents := Gsub(contents, PatternOf(FieldsMarker), columnDeclarations);
    contents := Gsub(contents, PatternOf(Version), IntToS(currentMigrationNumber + 1));
    ModelSubstitutionsInOrder(t.base, filename, name, fields, t, inf, currentMigrationNumber + 1);
    file := MigrationFile(MigrationFileName(currentMigrationNumber + 1, inf.underscore(filename)), contents);
  }
  // ------------------------------------------------------ standalone migration

  /** `change_format.gsub(/!TABLE!/, table).gsub(/!COLUMNS!/, statements.join("\n    "))`. */
  function ChangeBlock(changeFormat: string, table: string, statements: seq<string>): string {
    Gsub(Gsub(changeFormat, PatternOf(Table), table), PatternOf(Columns), Join(statements, "\n    "))
  }

  /**
   * The texts that replace `!UP!` and `!DOWN!`: the add block and the remove
   * block, in that order for an `add` migration and swapped otherwise. A block
   * is nil, which renders as empty, when there are no column tuples, and there
   * are none when the name scan found no direction.
   */
  function ChangeTexts(camelized: string, columns: seq<string>, t: ChangeTemplates,
                       pluralize: string -> string): (r: (string, string))
    ensures |columns| == 0 ==> r == ("", "")
  {
    var scan := DirectionAndTable(camelized, pluralize);
    var direction, tableName := scan.0, scan.1;
    var tuples := if direction.Some? then NormalizedFields(columns) else [];
    var forward := if |tuples| > 0 then Some(ChangeBlock(t.changeFormat, tableName.value, Render(tuples, t.add))) else None;
    var back := if |tuples| > 0 then Some(ChangeBlock(t.changeFormat, tableName.value, Render(tuples, t.remove))) else None;
    if direction == Some("add") then (forward.GetOr(""), back.GetOr(""))
    else (back.GetOr(""), forward.GetOr(""))
  }

  /** The substitutions of `output_migration_file`, in the order it makes them. */
  function ChangeSubstitutions(filename: string, upDown: (string, string), inf: Inflections,
                               version: nat): seq<Substitution>
  {
    [Substitution(Up, upDown.0),
     Substitution(Down, upDown.1),
     Substitution(FileName, inf.underscore(filename)),
     Substitution(FileClass, inf.camelize(filename)),
     Substitution(Version, IntToS(version))]
  }

  lemma ChangeSubstitutionsInOrder(s: string, filename: string, upDown: (string, string), inf: Inflections, version: nat)
    ensures SubstituteAll(s, ChangeSubstitutions(filename, upDown, inf, version)) ==
      Gsub(Gsub(Gsub(Gsub(Gsub(s,
        PatternOf(Up), upDown.0),
        PatternOf(Down), upDown.1),
        PatternOf(FileName), inf.underscore(filename)),
        PatternOf(FileClass), inf.camelize(filename)),
        PatternOf(Version), IntToS(version))
  {
    var subs := ChangeSubstitutions(filename, upDown, inf, version);
    var s1 := Gsub(s, PatternOf(subs[0].marker), subs[0].replacement);
    var s2 := Gsub(s1, PatternOf(subs[1].marker), subs[1].replacement);
    var s3 := Gsub(s2, PatternOf(subs[2].marker), subs[2].replacement);
    var s4 := Gsub(s3, PatternOf(subs[3].marker), subs[3].replacement);
    Unfold(s, subs);
    Unfold(s1, subs[1..]);
    Unfold(s2, subs[2..]);
    Unfold(s3, subs[3..]);
    Unfold(s4, subs[4..]);
    assert subs[1..][1..] == subs[2..];
    assert subs[2..][1..] == subs[3..];
    assert subs[3..][1..] == subs[4..];
    assert subs[4..][1..] == [];
  }

  /**
   * The first half of `output_migration_file`: the name scan, the column
   * tuples fixed in place, and the add and remove blocks placed for the up and
   * the down step.
   */
  method UpAndDownTexts(camelized: string, columns: seq<string>, t: ChangeTemplates, pluralize: string -> string)
    returns (upText: string, downText: string)
    ensures (upText, downText) == ChangeTexts(camelized, columns, t, pluralize)
  {
    var changeFormat := t.changeFormat;
    var scan := DirectionAndTable(camelized, pluralize);
    var direction, tableName := scan.0, scan.1;
    var parsed := if direction.Some? then ParseTokens(columns) else [];
    var tuples := FixedTuples(parsed);
    var addColumns := Render(tuples, t.add);
    var removeColumns := Render(tuples, t.remove);
    var forwardText: Option<string> := None;
    var backText: Option<string> := None;
    if |tuples| > 0 {
      forwardText := Some(ChangeBlock(changeFormat, tableName.value, addColumns));
      backText := Some(ChangeBlock(changeFormat, tableName.value, removeColumns));
    }
    upText := if direction == Some("add") then forwardText.GetOr("") else backText.GetOr("");
    downText := if direction == Some("add") then backText.GetOr("") else forwardText.GetOr("");
  }

  /**
   * `output_migration_file`. Its `name` parameter is not read. Every existing
   * base name must start with a digit, or reading its number fails.
   */
  method OutputMigrationFile(filename: string, name: string, columns: seq<string>, t: ChangeTemplates,
                             inf: Inflections, existing: seq<string>)
    returns (file: MigrationFile)
    requires forall k :: 0 <= k < |existing| ==> StartsWithDigit(existing[k])
    ensures file.name == MigrationFileName(NextVersion(existing), inf.underscore(filename))
    ensures file.contents == SubstituteAll(t.base, ChangeSubstitutions(filename,
              ChangeTexts(inf.camelize(filename), columns, t, inf.pluralize), inf, NextVersion(existing)))
  {
    var upText, downText := UpAndDownTexts(inf.camelize(filename), columns, t, inf.pluralize);
    var currentMigrationNumber := MaxVersion(existing);
    var version := currentMigrationNumber + 1;
    var contents := Gsub(t.base, PatternOf(Up), upText);
    contents := Gsub(contents, PatternOf(Down), downText);
    contents := Gsub(contents, PatternOf(FileName), inf.underscore(filename));
    contents := Gsub(contents, PatternOf(FileClass), inf.camelize(filename));
    contents := Gsub(contents, PatternOf(Version), IntToS(version));
    ChangeSubstitutionsInOrder(t.base, filename, (upText, downText), inf, version);
    assert version == NextVersion(existing);
    file := MigrationFile(MigrationFileName(version, inf.underscore(filename)), contents);
  }

  // -------------------------------------------------------- marker properties

  /** Text in which no `!` occurs: no marker can match in it. */
  predicate Plain(x: string) {
    forall j :: 0 <= j < |x| ==> x[j] != '!'
  }

  /** A match of a marker pattern puts `!word!` in the text after the indent. */
  lemma MatchHasMarker(s: string, i: int, k: Marker)
    ensures MatchesAt(s, i, PatternOf(k)) ==>
      0 <= i && i + k.indent + |k.word| + 2 <= |s| &&
      s[i + k.indent] == '!' && s[i + k.indent + |k.word| + 1] == '!' &&
      s[i + k.indent + 1..i + k.indent + 1 + |k.word|] == k.word
  {
    var p := PatternOf(k);
    if MatchesAt(s, i, p) {
      PatternShape(k);
      assert ClassHas(p[k.indent], s[i + k.indent]);
      assert ClassHas(p[k.indent + |k.word| + 1], s[i + k.indent + |k.word| + 1]);
      forall j | 0 <= j < |k.word| ensures s[i + k.indent + 1 + j] == k.word[j] {
        assert ClassHas(p[k.indent + 1 + j], s[i + k.indent + 1 + j]);
      }
    }
  }

  /** Substitution leaves plain text as it is. */
  lemma PlainKept(x: string, k: Marker, r: string)
    requires Plain(x)
    ensures Gsub(x, PatternOf(k), r) == x
  {
    forall i | 0 <= i <= |x| ensures !MatchesAt(x, i, PatternOf(k)) {
      MatchHasMarker(x, i, k);
    }
    GsubWithoutMatch(x, PatternOf(k), r);
  }

  /** A marker is not touched by the substitution of a marker with another word. */
  lemma MarkerKept(a: string, w: string, b: string, k: Marker, r: string)
    requires Plain(a) && Plain(w) && Plain(b) && w != k.word
    ensures Gsub(a + MarkerText(w) + b, PatternOf(k), r) == a + MarkerText(w) + b
  {
    var s := a + MarkerText(w) + b;
    forall n | 0 <= n < |s| && n != |a| && n != |a| + |w| + 1 ensures s[n] != '!' {
      if n < |a| {
        assert s[n] == a[n];
      } else if |a| < n < |a| + |w| + 1 {
        assert s[n] == w[n - |a| - 1];
      } else if n > |a| + |w| + 1 {
        assert s[n] == b[n - |a| - |w| - 2];
      }
    }
    assert s[|a| + 1..|a| + 1 + |w|] == w;
    forall i | 0 <= i <= |s| ensures !MatchesAt(s, i, PatternOf(k)) {
      MatchHasMarker(s, i, k);
    }
    GsubWithoutMatch(s, PatternOf(k), r);
  }

  /** A bare marker after plain text is replaced where it stands; substitution carries on after it. */
  lemma MarkerFilled(a: string, w: string, b: string, r: string)
    requires Plain(a)
    ensures Gsub(a + MarkerText(w) + b, PatternOf(Marker(0, w, false)), r)
         == a + r + Gsub(b, PatternOf(Marker(0, w, false)), r)
  {
    var k := Marker(0, w, false);
    var p := PatternOf(k);
    var m := MarkerText(w);
    assert p == Literal(m);
    assert MatchesAt(m, 0, p);
    forall i | 0 <= i < |a| ensures !MatchesAt(a + m + b, i, p) {
      MatchHasMarker(a + m + b, i, k);
      assert (a + m + b)[i] == a[i];
    }
    GsubSplice(a, m, b, p, r);
  }

  lemma {:induction false} SubstituteAllAppend(s: string, x: seq<Substitution>, y: seq<Substitution>)
    ensures SubstituteAll(s, x + y) == SubstituteAll(SubstituteAll(s, x), y)
    decreases |x|
  {
    if x != [] {
      assert (x + y)[1..] == x[1..] + y;
      SubstituteAllAppend(Gsub(s, PatternOf(x[0].marker), x[0].replacement), x[1..], y);
    } else {
      assert x + y == y;
    }
  }

  /** A marker that none of the substitutions names survives them all. */
  lemma {:induction false} MarkerKeptByAll(a: string, w: string, b: string, subs: seq<Substitution>)
    requires Plain(a) && Plain(w) && Plain(b)
    requires forall j :: 0 <= j < |subs| ==> subs[j].marker.word != w
    ensures SubstituteAll(a + MarkerText(w) + b, subs) == a + MarkerText(w) + b
    decreases |subs|
  {
    if subs != [] {
      MarkerKept(a, w, b, subs[0].marker, subs[0].replacement);
      MarkerKeptByAll(a, w, b, subs[1..]);
    }
  }

  /**
   * A marker that only the last substitution names, between plain texts, ends
   * up replaced by that substitution's text.
   */
  lemma {:induction false} LastMarkerFilled(a: string, w: string, b: string, subs: seq<Substitution>)
    requires Plain(a) && Plain(w) && Plain(b)
    requires |subs| > 0 && subs[|subs| - 1].marker == Marker(0, w, false)
    requires forall j :: 0 <= j < |subs| - 1 ==> subs[j].marker.word != w
    ensures SubstituteAll(a + MarkerText(w) + b, subs) == a + subs[|subs| - 1].replacement + b
  {
    var n := |subs| - 1;
    assert subs == subs[..n] + [subs[n]];
    SubstituteAllAppend(a + MarkerText(w) + b, subs[..n], [subs[n]]);
    MarkerKeptByAll(a, w, b, subs[..n]);
    MarkerFilled(a, w, b, subs[n].replacement);
    PlainKept(b, subs[n].marker, subs[n].replacement);
  }

  /**
   * Standalone migrations substitute only UP, DOWN, FILENAME, FILECLASS and
   * VERSION: any other marker in the template is left in the file as it is.
   */
  lemma StandaloneKeepsOtherMarkers(a: string, w: string, b: string, filename: string,
                                    upDown: (string, string), inf: Inflections, version: nat)
    requires Plain(a) && Plain(w) && Plain(b)
    requires w !in {"UP", "DOWN", "FILENAME", "FILECLASS", "VERSION"}
    ensures SubstituteAll(a + MarkerText(w) + b, ChangeSubstitutions(filename, upDown, inf, version))
         == a + MarkerText(w) + b
  {
    MarkerKeptByAll(a, w, b, ChangeSubstitutions(filename, upDown, inf, version));
  }

  /**
   * The version written into a standalone migration is the unpadded number
   * the file name carries.
   */
  lemma StandaloneVersionMatchesFileName(a: string, b: string, filename: string,
                                         upDown: (string, string), inf: Inflections, version: nat)
    requires Plain(a) && Plain(b)
    ensures SubstituteAll(a + MarkerText("VERSION") + b, ChangeSubstitutions(filename, upDown, inf, version))
         == a + IntToS(version) + b
    ensures ToI(IntToS(version)) == VersionOf(MigrationFileName(version, inf.underscore(filename)))
  {
    LastMarkerFilled(a, "VERSION", b, ChangeSubstitutions(filename, upDown, inf, version));
    IntToSRoundTrip(version);
    FileNameCarriesVersion(version, inf.underscore(filename));
  }

  /**
   * The version written into a model migration is the unpadded number the
   * file name carries.
   */
  lemma ModelVersionMatchesFileName(a: string, b: string, filename: string, name: string, fields: seq<string>,
                                    t: ModelTemplates, inf: Inflections, version: nat)
    requires Plain(a) && Plain(b)
    ensures SubstituteAll(a + MarkerText("VERSION") + b, ModelSubstitutions(filename, name, fields, t, inf, version))
         == a + IntToS(version) + b
    ensures ToI(IntToS(version)) == VersionOf(MigrationFileName(version, inf.underscore(filename)))
  {
    LastMarkerFilled(a, "VERSION", b, ModelSubstitutions(filename, name, fields, t, inf, version));
    IntToSRoundTrip(version);
    FileNameCarriesVersion(version, inf.underscore(filename));
  }

  /** Concatenated plain texts are plain. */
  lemma PlainConcat(x: string, y: string)
    requires Plain(x) && Plain(y)
    ensures Plain(x + y)
  {
    forall j | 0 <= j < |x + y| ensures (x + y)[j] != '!' {
      if j >= |x| {
        assert (x + y)[j] == y[j - |x|];
      }
    }
  }

  /** The `!TABLE!` gsub fills the table marker and keeps `!COLUMNS!`. */
  lemma TableFilled(c1: string, c2: string, c3: string, table: string)
    requires Plain(c1) && Plain(c2) && Plain(c3)
    ensures Gsub(c1 + MarkerText("TABLE") + c2 + MarkerText("COLUMNS") + c3, PatternOf(Table), table)
         == c1 + table + c2 + MarkerText("COLUMNS") + c3
  {
    var rest := c2 + MarkerText("COLUMNS") + c3;
    var p := PatternOf(Table);
    assert c1 + MarkerText("TABLE") + c2 + MarkerText("COLUMNS") + c3 == c1 + MarkerText("TABLE") + rest;
    MarkerFilled(c1, "TABLE", rest, table);
    assert Plain("COLUMNS") && "COLUMNS"[0] != "TABLE"[0];
    MarkerKept(c2, "COLUMNS", c3, Table, table);
    assert Gsub(rest, p, table) == rest;
    assert c1 + table + rest == c1 + table + c2 + MarkerText("COLUMNS") + c3;
  }

  /** The `!COLUMNS!` gsub fills the columns marker after a plain head. */
  lemma ColumnsFilled(head: string, c3: string, cols: string)
    requires Plain(head) && Plain(c3)
    ensures Gsub(head + MarkerText("COLUMNS") + c3, PatternOf(Columns), cols) == head + cols + c3
  {
    MarkerFilled(head, "COLUMNS", c3, cols);
    PlainKept(c3, Columns, cols);
  }

  /**
   * The change block: the table name is put where `!TABLE!` stood and the
   * column statements, one per line indented by four spaces, where `!COLUMNS!`
   * stood.
   */
  lemma ChangeBlockFilled(c1: string, c2: string, c3: string, table: string, statements: seq<string>)
    requires Plain(c1) && Plain(c2) && Plain(c3) && Plain(table)
    ensures ChangeBlock(c1 + MarkerText("TABLE") + c2 + MarkerText("COLUMNS") + c3, table, statements)
         == c1 + table + c2 + Join(statements, "\n    ") + c3
  {
    TableFilled(c1, c2, c3, table);
    PlainConcat(c1, table);
    PlainConcat(c1 + table, c2);
    var head := c1 + table + c2;
    assert c1 + table + c2 + MarkerText("COLUMNS") + c3 == head + MarkerText("COLUMNS") + c3;
    ColumnsFilled(head, c3, Join(statements, "\n    "));
  }

  /**
   * In a model migration `!UP!` on a line of its own, indented by four
   * spaces, is replaced by the up fragment first, so the markers the fragment
   * holds are filled by the substitutions that follow.
   */
  lemma ModelFillsUpFragment(a: string, b: string, filename: string, name: string, fields: seq<string>,
                             t: ModelTemplates, inf: Inflections, version: nat)
    requires Plain(a) && Plain(b)
    ensures var subs := ModelSubstitutions(filename, name, fields, t, inf, version);
      SubstituteAll(a + "    " + MarkerText("UP") + "\n" + b, subs) == SubstituteAll(a + t.up + b, subs[1..])
  {
    var subs := ModelSubstitutions(filename, name, fields, t, inf, version);
    var m := "    " + MarkerText("UP") + "\n";
    var p := PatternOf(Up);
    PatternShape(Up);
    assert MatchesAt(m, 0, p) by {
      forall j | 0 <= j < |p| ensures ClassHas(p[j], m[j]) {
        if j < 4 {
          assert IsRegexSpace(m[j]);
        }
      }
    }
    forall i | 0 <= i < |a| ensures !MatchesAt(a + m + b, i, p) {
      MatchHasMarker(a + m + b, i, Up);
      if i + 4 < |a| {
        assert (a + m + b)[i + 4] == a[i + 4];
      } else {
        assert (a + m + b)[i + 4] == m[i + 4 - |a|];
      }
    }
    assert a + "    " + MarkerText("UP") + "\n" + b == a + m + b;
    GsubSplice(a, m, b, p, t.up);
    PlainKept(b, Up, t.up);
    Unfold(a + m + b, subs);
  }

  /**
   * Where the add and remove blocks go: with no `Add`/`Remove` in the name,
   * or no columns, both steps are empty; otherwise the up step gets the add
   * block for an `Add` name and the remove block for a `Remove` name, and the
   * down step gets the other one. Both blocks name the scanned table,
   * downcased and pluralized.
   */
  lemma ChangeTextsPlacement(camelized: string, columns: seq<string>, t: ChangeTemplates,
                             pluralize: string -> string)
    ensures MigrationScan(camelized).None? || |columns| == 0 ==>
      ChangeTexts(camelized, columns, t, pluralize) == ("", "")
    ensures MigrationScan(camelized).Some? && |columns| > 0 ==>
      var scan := MigrationScan(camelized).value;
      var table := pluralize(Downcase(scan.table));
      var specs := NormalizedFields(columns);
      var addBlock := ChangeBlock(t.changeFormat, table, Render(specs, t.add));
      var removeBlock := ChangeBlock(t.changeFormat, table, Render(specs, t.remove));
      ChangeTexts(camelized, columns, t, pluralize)
        == (if scan.direction == Add then (addBlock, removeBlock) else (removeBlock, addBlock))
  {
    assert "remove" != "add";
  }
}
