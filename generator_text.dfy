/**
 * The small text builders of the generator helpers: controller actions and
 * routes from `verb:name` tokens, indentation, the mocking-library include
 * line and the test-suite setup file. Files are returned as values instead of
 * being created or injected.
 */
module GeneratorText {
  import opened Wrappers
  import opened RubyText
  import opened FieldSpecs

  // ------------------------------------------------------------- indentation

  /** `' ' * count`: a negative count raises `ArgumentError` ("negative argument"). */
  function IndentSpaces(count: int): (r: Result<string>)
    ensures r.Ok? <==> count >= 0
    ensures r.Ok? ==> |r.value| == count && forall i :: 0 <= i < |r.value| ==> r.value[i] == ' '
    ensures r.Err? ==> r.message == "negative argument"
  {
    if count < 0 then Err("negative argument") else Ok(seq(count, _ => ' '))
  }

  /** Indenting by `m` and then by `n` more is indenting by `m + n`. */
  lemma IndentAdds(m: nat, n: nat)
    ensures IndentSpaces(m).value + IndentSpaces(n).value == IndentSpaces(m + n).value
  {
    var l, r, both := IndentSpaces(m).value, IndentSpaces(n).value, IndentSpaces(m + n).value;
    assert |l + r| == |both|;
    forall i | 0 <= i < |both| ensures (l + r)[i] == both[i] {
      if i < m {
        assert (l + r)[i] == l[i];
      } else {
        assert (l + r)[i] == r[i - m];
      }
    }
  }

  // ------------------------------------------------------------- controllers

  /** One action: `"#{request} :#{name} do\n  end\n"`, where a missing part renders empty. */
  function ActionDeclaration(spec: FieldSpec): string {
    spec.field.GetOr("") + " :" + spec.kind.GetOr("") + " do\n  end\n"
  }

  /** `controller_actions(fields)`: one declaration per token, joined by a line feed and two spaces. */
  function ControllerActions(fields: seq<string>): (r: string)
    ensures r == "" <==> fields == []
  {
    Join(Render(ParseTokens(fields), ActionDeclaration), "\n  ")
  }

  /** One route: `"  map(:#{route}).to(\"/#{name}/#{route}\")"`. */
  function RouteLine(controller: string, spec: FieldSpec): string {
    var route := spec.kind.GetOr("");
    "  map(:" + route + ").to(\"/" + controller + "/" + route + "\")"
  }

  /** `controller_routes(name, fields)`: the route lines between a leading and a trailing line feed. */
  function ControllerRoutes(controller: string, fields: seq<string>): (r: string)
    ensures |r| >= 2 && r[0] == '\n' && r[|r| - 1] == '\n'
    ensures fields == [] ==> r == "\n\n"
  {
    "\n" + Join(seq(|fields|, k requires 0 <= k < |fields| => RouteLine(controller, ParseToken(fields[k]))), "\n") + "\n"
  }

  /** A `verb:name` token with no `:` in either part and a non-empty name. */
  predicate VerbToken(verb: string, name: string) {
    ':' !in verb && ':' !in name && name != ""
  }

  /**
   * Each `verb:name` token becomes the declaration `verb :name do` with its
   * `end`, in the order of the tokens.
   */
  lemma ControllerActionsOfTokens(verbs: seq<string>, names: seq<string>)
    requires |verbs| == |names|
    requires forall k :: 0 <= k < |verbs| ==> VerbToken(verbs[k], names[k])
    ensures ControllerActions(seq(|verbs|, k requires 0 <= k < |verbs| => verbs[k] + ":" + names[k]))
         == Join(seq(|verbs|, k requires 0 <= k < |verbs| => verbs[k] + " :" + names[k] + " do\n  end\n"), "\n  ")
  {
    var tokens := seq(|verbs|, k requires 0 <= k < |verbs| => verbs[k] + ":" + names[k]);
    var specs := ParseTokens(tokens);
    forall k | 0 <= k < |verbs| ensures specs[k] == FieldSpec(Some(verbs[k]), Some(names[k])) {
      ParseNameAndKind(verbs[k], names[k]);
    }
    assert Render(specs, ActionDeclaration)
        == seq(|verbs|, k requires 0 <= k < |verbs| => verbs[k] + " :" + names[k] + " do\n  end\n");
  }

  /** A token without a `:` has no name: the declaration still comes out, with an empty name. */
  lemma ActionWithoutName(verb: string)
    requires ':' !in verb && verb != ""
    ensures ControllerActions([verb]) == verb + " : do\n  end\n"
  {
    ParseBareToken(verb);
  }

  /**
   * The routes text splits back, line by line, into an empty first line, one
   * `map(:route).to("/controller/route")` line per token and an empty last line.
   */
  lemma ControllerRoutesLines(controller: string, verbs: seq<string>, routes: seq<string>)
    requires |verbs| == |routes| > 0
    requires forall k :: 0 <= k < |verbs| ==> VerbToken(verbs[k], routes[k]) && '\n' !in routes[k]
    requires '\n' !in controller
    ensures var lines := seq(|routes|, k requires 0 <= k < |routes| =>
                             "  map(:" + routes[k] + ").to(\"/" + controller + "/" + routes[k] + "\")");
      Fields(ControllerRoutes(controller, seq(|verbs|, k requires 0 <= k < |verbs| => verbs[k] + ":" + routes[k])), '\n')
        == [""] + lines + [""]
  {
    var tokens := seq(|verbs|, k requires 0 <= k < |verbs| => verbs[k] + ":" + routes[k]);
    var lines := seq(|routes|, k requires 0 <= k < |routes| =>
                     "  map(:" + routes[k] + ").to(\"/" + controller + "/" + routes[k] + "\")");
    var rendered := seq(|tokens|, k requires 0 <= k < |tokens| => RouteLine(controller, ParseToken(tokens[k])));
    forall k | 0 <= k < |verbs| ensures rendered[k] == lines[k] {
      ParseNameAndKind(verbs[k], routes[k]);
    }
    assert rendered == lines;
    var all := [""] + lines + [""];
    forall k | 0 <= k < |all| ensures '\n' !in all[k] {
      if 0 < k < |all| - 1 {
        var line := lines[k - 1];
        assert line == "  map(:" + routes[k - 1] + ").to(\"/" + controller + "/" + routes[k - 1] + "\")";
      }
    }
    JoinWrapped(lines, "\n");
    FieldsOfJoin(all, '\n');
  }

  lemma JoinWrapped(parts: seq<string>, sep: string)
    requires |parts| > 0
    ensures Join([""] + parts + [""], sep) == sep + Join(parts, sep) + sep
  {
    assert ([""] + parts + [""])[1..] == parts + [""];
    JoinSnoc(parts, "", sep);
  }

  // ---------------------------------------------------------------- mocking

  /**
   * Where `inject_into_file` puts its text: after the first line that
   * contains `class` (the default pattern `/class.*?\n/`), or after the
   * anchor the caller gives as `:after`.
   */
  datatype Anchor = ClassLine | After(anchor: string)

  /** The text `insert_mocking_include` injects, the file it goes to, and the anchor it follows. */
  datatype Injection = Injection(path: string, text: string, after: Anchor)

  const TestConfigPath := "test/test_config.rb"

  /**
   * `insert_mocking_include(library_name, options)`: the indent defaults to 2
   * and the path to the test configuration. Nothing is injected when the file
   * is missing (`fileExists` stands for `File.exist?`); the indent is only
   * computed after that check, so a negative indent fails only for a file
   * that exists.
   */
  function MockingInclude(libraryName: string, indent: Option<int>, after: Option<Anchor>,
                          path: Option<string>, fileExists: bool): (r: Result<Option<Injection>>)
    ensures !fileExists ==> r == Ok(None)
    ensures fileExists && indent.GetOr(2) < 0 ==> r == Err("negative argument")
    ensures fileExists && indent.GetOr(2) >= 0 ==>
      r.Ok? && r.value.Some? && r.value.value.path == path.GetOr(TestConfigPath) &&
      r.value.value.text == IndentSpaces(indent.GetOr(2)).value + "include " + libraryName + "\n" &&
      r.value.value.after == after.GetOr(ClassLine)
  {
    if !fileExists then Ok(None)
    else
      match IndentSpaces(indent.GetOr(2))
      case Err(e) => Err(e)
      case Ok(spaces) =>
        Ok(Some(Injection(path.GetOr(TestConfigPath), spaces + "include " + libraryName + "\n", after.GetOr(ClassLine))))
  }

  /** With the defaults the include line is indented by two spaces. */
  lemma MockingIncludeDefault(libraryName: string)
    ensures MockingInclude(libraryName, None, None, None, true)
         == Ok(Some(Injection(TestConfigPath, "  include " + libraryName + "\n", ClassLine)))
  {
    var spaces := IndentSpaces(2).value;
    assert spaces[0] == ' ' && spaces[1] == ' ';
    assert spaces == "  ";
    assert spaces + "include " == "  include ";
  }

  // ------------------------------------------------------------- test suite

  /** A file the generator creates: its path and its whole text. */
  datatype CreatedFile = CreatedFile(path: string, contents: string)

  /** The lines of the test helper as written in the source, before the heredoc is dedented. */
  const TestHelperLines := [
    "RACK_ENV = 'test' unless defined?(RACK_ENV)",
    "require File.dirname(__FILE__) + " + Quote + "/../config/boot" + Quote,
    "Bundler.require_env(:testing)"]

  const Quote := ['"']

  const Indent8 := "        "

  /** `gsub(/^ {8}/, '')` for one line: eight leading spaces are dropped. */
  function Dedent8Line(line: string): (r: string)
    ensures |line| >= 8 && line[..8] == Indent8 ==> r == line[8..]
    ensures !(|line| >= 8 && line[..8] == Indent8) ==> r == line
  {
    if |line| >= 8 && line[..8] == Indent8 then line[8..] else line
  }

  /** `gsub(/^ {8}/, '')`: eight spaces at the start of every line are dropped. */
  function Dedent8(text: string): string {
    var lines := Fields(text, '\n');
    Join(seq(|lines|, k requires 0 <= k < |lines| => Dedent8Line(lines[k])), "\n")
  }

  /** A heredoc body: each line indented by eight spaces and ended by a line feed. */
  function Heredoc(lines: seq<string>): string {
    Join(seq(|lines|, k requires 0 <= k < |lines| => Indent8 + lines[k]) + [""], "\n")
  }

  /** `BASE_TEST_HELPER`. */
  function BaseTestHelper(): string {
    Dedent8(Heredoc(TestHelperLines))
  }

  /** Dedenting a heredoc gives its lines back, each ended by a line feed. */
  lemma {:induction false} DedentHeredoc(lines: seq<string>)
    requires forall k :: 0 <= k < |lines| ==> '\n' !in lines[k]
    ensures Dedent8(Heredoc(lines)) == Join(lines + [""], "\n")
  {
    var indented := seq(|lines|, k requires 0 <= k < |lines| => Indent8 + lines[k]) + [""];
    forall k | 0 <= k < |indented| ensures '\n' !in indented[k] {
      if k < |lines| {
        assert indented[k] == Indent8 + lines[k];
      }
    }
    FieldsOfJoin(indented, '\n');
    var dedented := seq(|indented|, k requires 0 <= k < |indented| => Dedent8Line(indented[k]));
    forall k | 0 <= k < |indented| ensures dedented[k] == (lines + [""])[k] {
      if k < |lines| {
        assert (Indent8 + lines[k])[..8] == Indent8;
        assert (Indent8 + lines[k])[8..] == lines[k];
      }
    }
    assert dedented == lines + [""];
  }

  lemma FirstHelperLine()
    ensures '\n' !in TestHelperLines[0]
  {
  }

  lemma SecondHelperLine()
    ensures '\n' !in TestHelperLines[1]
  {
  }

  lemma ThirdHelperLine()
    ensures '\n' !in TestHelperLines[2]
  {
  }

  /** The test helper is its three lines, unindented, each ended by a line feed. */
  lemma BaseTestHelperText()
    ensures BaseTestHelper() == Join(TestHelperLines + [""], "\n")
  {
    FirstHelperLine();
    SecondHelperLine();
    ThirdHelperLine();
    DedentHeredoc(TestHelperLines);
  }

  /**
   * `insert_test_suite_setup(suite_text, options)`: the test helper and the
   * suite text with every `CLASS_NAME` replaced by the class name, joined by
   * a line feed, written to the given path or the test configuration.
   */
  function TestSuiteSetup(suiteText: string, className: string, path: Option<string>): (f: CreatedFile)
    ensures f.path == path.GetOr(TestConfigPath)
  {
    CreatedFile(path.GetOr(TestConfigPath), BaseTestHelper() + "\n" + Gsub(suiteText, Literal("CLASS_NAME"), className))
  }

  /**
   * A suite text made of pieces around `CLASS_NAME` gets the class name at each
   * of those places, and follows the unindented test helper and an empty line.
   */
  lemma TestSuiteSetupText(pieces: seq<string>, className: string, path: Option<string>)
    requires |pieces| >= 1
    requires forall k :: 0 <= k < |pieces| ==> !Occurs(pieces[k], Literal("CLASS_NAME"))
    ensures TestSuiteSetup(Join(pieces, "CLASS_NAME"), className, path).contents
         == Join(TestHelperLines + [""], "\n") + "\n" + Join(pieces, className)
  {
    assert "CLASS_NAME"[0] !in "CLASS_NAME"[1..];
    GsubJoin(pieces, "CLASS_NAME", className);
    BaseTestHelperText();
  }
}
