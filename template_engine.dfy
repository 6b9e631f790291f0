/**
 * The template engine (template_engine.go).  `Render` parses the template
 * text and then executes it against a parameter map; only the `{{.Name}}`
 * field action of Go's text/template is modelled, so any other action is a
 * parse failure here.  `Preview` renders against the declared parameters'
 * example values.
 */
module TemplateEngine {
  import opened Wrappers
  import opened Errors
  import opened Strings
  import opened Types
  import opened Trigger

  /** What text/template prints for a field that the parameter map lacks. */
  const NoValue := "<no value>"

  /** A parsed template is a sequence of literal characters and field references. */
  datatype Piece = Literal(c: char) | Field(name: string)

  /** Blanks the action lexer skips around a field. */
  predicate IsActionBlank(c: char) {
    c == ' ' || c == '\t' || c == '\r' || c == '\n'
  }

  /**
   * ASCII letters, digits and '_'.  Go's lexer also takes the non-ASCII
   * Unicode letters and digits; those are not modelled, so a name holding
   * one is an unsupported action here.
   */
  predicate IsNameChar(c: char) {
    c == '_' || 'a' <= c <= 'z' || 'A' <= c <= 'Z' || IsDigit(c)
  }

  /** A field name: name characters, not starting with a digit. */
  predicate IsName(s: string) {
    |s| > 0 && !IsDigit(s[0]) && forall i :: 0 <= i < |s| ==> IsNameChar(s[i])
  }

  predicate OpensAction(s: string) {
    |s| >= 2 && s[0] == '{' && s[1] == '{'
  }

  predicate ClosesAt(s: string, i: int) {
    0 <= i && i + 1 < |s| && s[i] == '}' && s[i + 1] == '}'
  }

  /** The position of the first "}}" in `s`, if there is one. */
  function CloseAt(s: string): (r: Option<nat>)
    ensures r.Some? ==> ClosesAt(s, r.value) && forall i :: 0 <= i < r.value ==> !ClosesAt(s, i)
    ensures r.None? ==> forall i :: 0 <= i < |s| ==> !ClosesAt(s, i)
    decreases |s|
  {
    if |s| < 2 then None
    else if s[0] == '}' && s[1] == '}' then Some(0)
    else
      assert forall i :: 1 <= i < |s| ==> ClosesAt(s, i) == ClosesAt(s[1..], i - 1);
      match CloseAt(s[1..])
      case None => None
      case Some(k) => Some(k + 1)
  }

  /** Drops the blanks at the front of an action's text. */
  function SkipBlanks(s: string): (r: string)
    ensures |r| <= |s| && r == s[|s| - |r|..]
    ensures forall i :: 0 <= i < |s| - |r| ==> IsActionBlank(s[i])
    ensures r == [] || !IsActionBlank(r[0])
  {
    if s != [] && IsActionBlank(s[0]) then SkipBlanks(s[1..]) else s
  }

  /** Drops the blanks at the end of an action's text. */
  function DropBlanks(s: string): (r: string)
    ensures |r| <= |s| && r == s[..|r|]
    ensures forall i :: |r| <= i < |s| ==> IsActionBlank(s[i])
    ensures r == [] || !IsActionBlank(r[|r| - 1])
  {
    if s != [] && IsActionBlank(s[|s| - 1]) then DropBlanks(s[..|s| - 1]) else s
  }

  /** The field an action's text names, when the action is `.Name` between blanks. */
  function FieldName(action: string): (r: Option<string>)
    ensures r.Some? ==> IsName(r.value)
    ensures r.Some? ==> exists i, j :: 0 <= i <= j <= |action| && action[i..j] == "." + r.value
                                        && BlanksOutside(action, i, j)
  {
    var u := SkipBlanks(action);
    var t := DropBlanks(u);
    if |t| >= 2 && t[0] == '.' && IsName(t[1..]) then
      BlanksAround(action, u, t);
      Some(t[1..])
    else None
  }

  /** Every character of `s` before `i` and from `j` on is an action blank. */
  predicate BlanksOutside(s: string, i: int, j: int)
    requires 0 <= i <= j <= |s|
  {
    (forall k :: 0 <= k < i ==> IsActionBlank(s[k])) && (forall k :: j <= k < |s| ==> IsActionBlank(s[k]))
  }

  /** Solver aid: the two blank skips leave `t`, which starts with '.', as a stretch of `s` blank outside. */
  lemma BlanksAround(s: string, u: string, t: string)
    requires |u| <= |s| && u == s[|s| - |u|..]
    requires 1 <= |t| <= |u| && t == u[..|t|] && t[0] == '.'
    requires forall k :: 0 <= k < |s| - |u| ==> IsActionBlank(s[k])
    requires forall k :: |t| <= k < |u| ==> IsActionBlank(u[k])
    ensures exists i, j :: 0 <= i <= j <= |s| && s[i..j] == "." + t[1..] && BlanksOutside(s, i, j)
  {
    var i := |s| - |u|;
    assert t == "." + t[1..];
    SliceOfSuffix(s, i, |t|);
    forall k | i + |t| <= k < |s|
      ensures IsActionBlank(s[k])
    {
      assert s[k] == u[k - i];
    }
    assert s[i..i + |t|] == "." + t[1..] && BlanksOutside(s, i, i + |t|);
  }

  /**
   * Parses template text, left to right.  An action that is never closed, or
   * whose text is not a field reference, fails the whole parse.
   */
  function Parse(s: string): (r: Result<seq<Piece>, Error>)
    ensures r.Failure? ==> r.error.TemplateRender?
    decreases |s|
  {
    if s == [] then Success([])
    else if OpensAction(s) then
      match CloseAt(s[2..])
      case None => Failure(TemplateRender("unclosed action"))
      case Some(k) =>
        match FieldName(s[2..2 + k])
        case None => Failure(TemplateRender("unsupported action: " + s[2..2 + k]))
        case Some(name) =>
          match Parse(s[2 + k + 2..])
          case Failure(e) => Failure(e)
          case Success(rest) => Success([Field(name)] + rest)
    else
      match Parse(s[1..])
      case Failure(e) => Failure(e)
      case Success(rest) => Success([Literal(s[0])] + rest)
  }

  /** The text a parameter value prints as. */
  function ValueText(v: Value): string {
    match v
    case Str(t) => t
    case Int(n) => IntText(n)
  }

  /** The text a field reference prints as. */
  function FieldText(params: map<string, Value>, name: string): string {
    if name in params then ValueText(params[name]) else NoValue
  }

  /** Executes a parsed template; a field lookup never fails. */
  function Execute(pieces: seq<Piece>, params: map<string, Value>): string {
    if pieces == [] then ""
    else
      var head := match pieces[0]
        case Literal(c) => [c]
        case Field(name) => FieldText(params, name);
      head + Execute(pieces[1..], params)
  }

  /**
   * `Render`: parse, then execute.  It fails exactly when the parse does,
   * whatever the parameters hold, and a failure carries no text at all.
   */
  function Render(text: string, params: map<string, Value>): (r: Result<string, Error>)
    ensures r.Failure? <==> Parse(text).Failure?
    ensures r.Failure? ==> r.error.TemplateRender?
  {
    match Parse(text)
    case Failure(e) => Failure(e)
    case Success(pieces) => Success(Execute(pieces, params))
  }

  /** `t` in front of a render result, failures passed through. */
  function Prefixed(t: string, r: Result<string, Error>): Result<string, Error> {
    match r
    case Success(out) => Success(t + out)
    case Failure(e) => Failure(e)
  }

  // ---------------------------------------------------------------------
  // Substitution semantics
  // ---------------------------------------------------------------------

  /** A character that does not open an action renders as itself. */
  lemma RenderStep(s: string, params: map<string, Value>)
    requires s != [] && !OpensAction(s)
    ensures Render(s, params) == Prefixed([s[0]], Render(s[1..], params))
  {
    match Parse(s[1..])
    case Failure(e) =>
    case Success(pieces) =>
      var all := [Literal(s[0])] + pieces;
      assert all[1..] == pieces;
  }

  lemma PrefixedTwice(a: string, b: string, r: Result<string, Error>)
    ensures Prefixed(a, Prefixed(b, r)) == Prefixed(a + b, r)
  {
    match r
    case Failure(e) =>
    case Success(out) => assert a + (b + out) == (a + b) + out;
  }

  /** Text without '{' renders as itself in front of whatever follows it. */
  lemma {:induction false} RenderLiteral(t: string, rest: string, params: map<string, Value>)
    requires forall i :: 0 <= i < |t| ==> t[i] != '{'
    ensures Render(t + rest, params) == Prefixed(t, Render(rest, params))
    decreases |t|
  {
    if t == [] {
      assert t + rest == rest;
      PrefixedTwice([], [], Render(rest, params));
      match Render(rest, params)
      case Failure(e) =>
      case Success(out) => assert t + out == out;
    } else {
      var s := t + rest;
      assert s[0] == t[0] && !OpensAction(s);
      assert s[1..] == t[1..] + rest;
      RenderStep(s, params);
      RenderLiteral(t[1..], rest, params);
      PrefixedTwice([t[0]], t[1..], Render(rest, params));
      assert [t[0]] + t[1..] == t;
    }
  }

  /** `}}` found after a run free of '}' closes right there. */
  lemma {:induction false} CloseAfter(u: string, v: string)
    requires forall i :: 0 <= i < |u| ==> u[i] != '}'
    ensures CloseAt(u + "}}" + v) == Some(|u|)
    decreases |u|
  {
    if u != [] {
      assert (u + "}}" + v)[1..] == u[1..] + "}}" + v;
      CloseAfter(u[1..], v);
    }
  }

  /** The action text `.Name` names the field `Name`. */
  lemma FieldNameOfDotName(name: string)
    requires IsName(name)
    ensures FieldName("." + name) == Some(name)
  {
    var action := "." + name;
    assert action[0] == '.' && action[1..] == name;
    assert action[|action| - 1] == name[|name| - 1];
    assert IsNameChar(name[|name| - 1]);
    assert SkipBlanks(action) == action;
  }

  /** A closed field action parses to a field reference in front of the rest. */
  lemma ParseFieldAction(s: string, action: string, rest: string, name: string)
    requires s == "{{" + action + "}}" + rest
    requires forall i :: 0 <= i < |action| ==> action[i] != '}'
    requires FieldName(action) == Some(name)
    ensures Parse(s) == match Parse(rest)
                        case Failure(e) => Failure(e)
                        case Success(pieces) => Success([Field(name)] + pieces)
  {
    ActionSlices(s, action, rest);
    CloseAfter(action, rest);
  }

  /** A closed action that is not a field reference fails the whole parse. */
  lemma ParseUnsupportedAction(s: string, action: string, rest: string)
    requires s == "{{" + action + "}}" + rest
    requires forall i :: 0 <= i < |action| ==> action[i] != '}'
    requires FieldName(action).None?
    ensures Parse(s).Failure?
  {
    ActionSlices(s, action, rest);
    CloseAfter(action, rest);
  }

  /**
   * A character that is neither a name character, an action blank nor '}'
   * ends a field name with a lex error: `.Name` followed by it names no field.
   */
  lemma StrayCharacterInName(name: string, c: char)
    requires IsName(name) && !IsNameChar(c) && !IsActionBlank(c) && c != '}'
    ensures FieldName("." + name + [c]).None?
  {
    var action := "." + name + [c];
    assert action[0] == '.' && action[|action| - 1] == c;
    assert SkipBlanks(action) == action;
    assert DropBlanks(action) == action;
    assert action[1..][|action| - 2] == c;
  }

  /** The template "{{.A　}}" (U+3000 after the name) is a render error, as in Go's lexer. */
  lemma RenderIdeographicSpaceName(params: map<string, Value>)
    ensures Render("{{.A\U{3000}}}", params).Failure?
  {
    var action := ".A\U{3000}";
    StrayCharacterInName("A", '\U{3000}');
    assert "." + "A" + ['\U{3000}'] == action;
    assert "{{.A\U{3000}}}" == "{{" + action + "}}" + "";
    ParseUnsupportedAction("{{.A\U{3000}}}", action, "");
  }

  /** Solver aid: the slices of an action written as "{{" + action + "}}" + rest. */
  lemma ActionSlices(s: string, action: string, rest: string)
    requires s == "{{" + action + "}}" + rest
    ensures OpensAction(s) && s[2..] == action + "}}" + rest
    ensures s[2..2 + |action|] == action && s[2 + |action| + 2..] == rest
  {
  }

  /** Solver aid: `.Name` holds no '}'. */
  lemma NoCloseInDotName(name: string)
    requires IsName(name)
    ensures forall i :: 0 <= i < |"." + name| ==> ("." + name)[i] != '}'
  {
    var action := "." + name;
    forall i | 0 <= i < |action|
      ensures action[i] != '}'
    {
      if i > 0 {
        assert action[i] == name[i - 1];
        assert IsNameChar(name[i - 1]);
      }
    }
  }

  /** `{{.Name}}` parses to the field in front of the parse of whatever follows it. */
  lemma ParseDotName(name: string, rest: string)
    requires IsName(name)
    ensures Parse("{{." + name + "}}" + rest) == match Parse(rest)
                                                 case Failure(e) => Failure(e)
                                                 case Success(pieces) => Success([Field(name)] + pieces)
  {
    var action := "." + name;
    var s := "{{." + name + "}}" + rest;
    assert s == "{{" + action + "}}" + rest;
    FieldNameOfDotName(name);
    NoCloseInDotName(name);
    ParseFieldAction(s, action, rest, name);
  }

  /** `{{.Name}}` renders as the parameter's text in front of whatever follows it. */
  lemma RenderField(name: string, rest: string, params: map<string, Value>)
    requires IsName(name)
    ensures Render("{{." + name + "}}" + rest, params) == Prefixed(FieldText(params, name), Render(rest, params))
  {
    ParseDotName(name, rest);
    match Parse(rest)
    case Failure(e) =>
    case Success(pieces) =>
      var all := [Field(name)] + pieces;
      assert all[1..] == pieces;
      assert Execute(all, params) == FieldText(params, name) + Execute(pieces, params);
  }

  /** Text in which no action opens renders as itself, whatever the parameters. */
  lemma {:induction false} RenderPlain(t: string, params: map<string, Value>)
    requires NoActionOpens(t)
    ensures Render(t, params) == Success(t)
    decreases |t|
  {
    if t != [] {
      assert !OpensAction(t);
      RenderStep(t, params);
      assert NoActionOpens(t[1..]) by {
        forall i | 0 <= i < |t[1..]| - 1
          ensures !(t[1..][i] == '{' && t[1..][i + 1] == '{')
        {
          assert t[1..][i] == t[i + 1] && t[1..][i + 1] == t[i + 2];
        }
      }
      RenderPlain(t[1..], params);
      assert [t[0]] + t[1..] == t;
    }
  }

  /** No "{{" occurs anywhere in `t`: a lone '{' is plain text. */
  predicate NoActionOpens(t: string) {
    forall i :: 0 <= i < |t| - 1 ==> !(t[i] == '{' && t[i + 1] == '{')
  }

  /** A CSS rule with single braces is copied verbatim, as text/template does. */
  lemma RenderCssBraces(params: map<string, Value>)
    ensures Render("p { color: red }", params) == Success("p { color: red }")
  {
    RenderPlain("p { color: red }", params);
  }

  /** `RenderField` for a rest whose render is known. */
  lemma RenderFieldThen(name: string, rest: string, params: map<string, Value>, out: string)
    requires IsName(name) && Render(rest, params) == Success(out)
    ensures Render("{{." + name + "}}" + rest, params) == Success(FieldText(params, name) + out)
  {
    RenderField(name, rest, params);
  }

  /** `RenderLiteral` for a rest whose render is known. */
  lemma RenderLiteralThen(t: string, rest: string, params: map<string, Value>, out: string)
    requires forall i :: 0 <= i < |t| ==> t[i] != '{'
    requires Render(rest, params) == Success(out)
    ensures Render(t + rest, params) == Success(t + out)
  {
    RenderLiteral(t, rest, params);
  }

  /**
   * A field between two runs of plain text: the text is copied verbatim and
   * the field replaced by its parameter's text (or "<no value>").
   */
  lemma RenderSubstitutes(a: string, name: string, b: string, params: map<string, Value>)
    requires forall i :: 0 <= i < |a| ==> a[i] != '{'
    requires forall i :: 0 <= i < |b| ==> b[i] != '{'
    requires IsName(name)
    ensures Render(a + "{{." + name + "}}" + b, params) == Success(a + FieldText(params, name) + b)
  {
    var t := FieldText(params, name);
    RenderPlain(b, params);
    RenderFieldThen(name, b, params, b);
    RenderLiteralThen(a, "{{." + name + "}}" + b, params, t + b);
    FieldRegroup(a, name, b);
    Regroup(a, t, b);
  }

  /** Solver aid: regroups a concatenation around a field action. */
  lemma FieldRegroup(a: string, name: string, b: string)
    ensures a + "{{." + name + "}}" + b == a + ("{{." + name + "}}" + b)
  {
  }

  /** Solver aid: regroups a three-part concatenation. */
  lemma Regroup(a: string, t: string, b: string)
    ensures a + (t + b) == a + t + b
  {
  }

  /** Two fields among plain text: each is replaced, the text between them copied. */
  lemma RenderSubstitutesTwo(a: string, n1: string, b: string, n2: string, c: string,
                             params: map<string, Value>)
    requires forall i :: 0 <= i < |a| ==> a[i] != '{'
    requires forall i :: 0 <= i < |b| ==> b[i] != '{'
    requires forall i :: 0 <= i < |c| ==> c[i] != '{'
    requires IsName(n1) && IsName(n2)
    ensures Render(a + "{{." + n1 + "}}" + b + "{{." + n2 + "}}" + c, params)
         == Success(a + FieldText(params, n1) + b + FieldText(params, n2) + c)
  {
    var t1 := FieldText(params, n1);
    var t2 := FieldText(params, n2);
    var tail := b + "{{." + n2 + "}}" + c;
    RenderSubstitutes(b, n2, c, params);
    RenderFieldThen(n1, tail, params, b + t2 + c);
    RenderLiteralThen(a, "{{." + n1 + "}}" + tail, params, t1 + (b + t2 + c));
    TwoFieldsRegroup(a, n1, b, n2, c, tail);
    TextRegroup(a, t1, b, t2, c);
  }

  /** Solver aid: regroups a two-field template around its first field. */
  lemma TwoFieldsRegroup(a: string, n1: string, b: string, n2: string, c: string, tail: string)
    requires tail == b + "{{." + n2 + "}}" + c
    ensures a + "{{." + n1 + "}}" + b + "{{." + n2 + "}}" + c == a + ("{{." + n1 + "}}" + tail)
  {
  }

  /** Solver aid: appending the empty text changes nothing. */
  lemma EmptyTail(s: string)
    ensures s + "" == s
  {
  }

  /** Solver aid: regroups the rendered two-field text. */
  lemma TextRegroup(a: string, t1: string, b: string, t2: string, c: string)
    ensures a + (t1 + (b + t2 + c)) == a + t1 + b + t2 + c
  {
  }

  /** An action opened after plain text and never closed fails the render. */
  lemma UnclosedActionFails(t: string, u: string, params: map<string, Value>)
    requires forall i :: 0 <= i < |t| ==> t[i] != '{'
    requires forall i :: 0 <= i < |u| ==> !ClosesAt(u, i)
    ensures Render(t + "{{" + u, params).Failure?
  {
    RenderLiteral(t, "{{" + u, params);
    assert ("{{" + u)[2..] == u;
    assert OpensAction("{{" + u);
    assert t + "{{" + u == t + ("{{" + u);
  }

  // ---------------------------------------------------------------------
  // Preview
  // ---------------------------------------------------------------------

  /** A declared parameter's preview value: its example, or its own placeholder text. */
  function ExampleValue(p: Param): Value {
    if p.example != "" then Str(p.example) else Str("{{." + p.name + "}}")
  }

  /**
   * The map `Preview` builds: every declared name, each with the preview
   * value of its last declaration.
   */
  function ExampleMap(params: seq<Param>): (m: map<string, Value>)
    ensures m.Keys == set i | 0 <= i < |params| :: params[i].name
    decreases |params|
  {
    if params == [] then map[]
    else
      var last := params[|params| - 1];
      var init := params[..|params| - 1];
      var m := ExampleMap(init)[last.name := ExampleValue(last)];
      assert forall i :: 0 <= i < |init| ==> init[i] == params[i];
      m
  }

  /** When a name is declared more than once, the last declaration wins. */
  lemma {:induction false} ExampleMapLastWins(params: seq<Param>, i: nat)
    requires i < |params|
    requires forall j :: i < j < |params| ==> params[j].name != params[i].name
    ensures params[i].name in ExampleMap(params)
    ensures ExampleMap(params)[params[i].name] == ExampleValue(params[i])
    decreases |params|
  {
    if i < |params| - 1 {
      var init := params[..|params| - 1];
      ExampleMapLastWins(init, i);
    }
  }

  /** The loop of `Preview` (and of `TestSend`) that fills the example map. */
  method BuildExampleParams(params: seq<Param>) returns (m: map<string, Value>)
    ensures m == ExampleMap(params)
  {
    m := map[];
    for i := 0 to |params|
      invariant m == ExampleMap(params[..i])
    {
      assert params[..i + 1][..i] == params[..i];
      m := m[params[i].name := ExampleValue(params[i])];
    }
    assert params[..|params|] == params;
  }

  /** `Preview`: renders `text` against the declared parameters' preview values. */
  method Preview(text: string, params: seq<Param>) returns (r: Result<string, Error>)
    ensures r == Render(text, ExampleMap(params))
  {
    var examples := BuildExampleParams(params);
    r := Render(text, examples);
  }

  /**
   * In a preview, a declared field shows its example, or, when it has none,
   * its own placeholder `{{.Name}}` verbatim.
   */
  lemma PreviewOfField(params: seq<Param>, i: nat)
    requires i < |params| && IsName(params[i].name)
    requires forall j :: i < j < |params| ==> params[j].name != params[i].name
    ensures Render("{{." + params[i].name + "}}", ExampleMap(params))
         == Success(if params[i].example != "" then params[i].example else "{{." + params[i].name + "}}")
  {
    var p := params[i];
    var examples := ExampleMap(params);
    ExampleMapLastWins(params, i);
    assert FieldText(examples, p.name) == ValueText(ExampleValue(p));
    RenderField(p.name, "", examples);
    assert Render("", examples) == Success("");
    var placeholder := "{{." + p.name + "}}";
    assert placeholder + "" == placeholder;
    assert FieldText(examples, p.name) + "" == FieldText(examples, p.name);
  }

  // ---------------------------------------------------------------------
  // The rendering cases of the engine's tests (template_engine_test.go).
  // The pieces are parameters fixed by `requires`, so that the solver
  // reasons through the lemmas above instead of unfolding `Parse` on
  // literal text.
  // ---------------------------------------------------------------------

  /** The parameters spell the template "Hello, {{.UserName}}!", rendered with UserName 张三. */
  lemma RenderSimpleField(a: string, name: string, b: string, params: map<string, Value>)
    requires a == "Hello, " && name == "UserName" && b == "!"
    requires params == map["UserName" := Str("张三")]
    ensures Render(a + "{{." + name + "}}" + b, params) == Success("Hello, 张三!")
  {
    RenderSubstitutes(a, name, b, params);
    assert FieldText(params, name) == "张三";
    assert a + "张三" + b == "Hello, 张三!";
  }

  /** The parameters spell the template "Hi {{.UserName}}, your email is {{.Email}}": two fields in one text. */
  lemma RenderTwoFields(a: string, n1: string, b: string, n2: string, params: map<string, Value>)
    requires a == "Hi " && n1 == "UserName" && b == ", your email is " && n2 == "Email"
    requires params == map["UserName" := Str("张三"), "Email" := Str("test@example.com")]
    ensures Render(a + "{{." + n1 + "}}" + b + "{{." + n2 + "}}", params)
         == Success("Hi 张三, your email is test@example.com")
  {
    TwoFieldsShape(a, n1, b, n2);
    RenderSubstitutesTwo(a, n1, b, n2, "", params);
    var t1, t2 := FieldText(params, n1), FieldText(params, n2);
    EmptyTail(a + "{{." + n1 + "}}" + b + "{{." + n2 + "}}");
    EmptyTail(a + t1 + b + t2);
    TwoFieldsText(a, t1, b, t2);
  }

  /** Solver aid: the literal parts of the two-field example hold no "{" and its names are valid. */
  lemma TwoFieldsShape(a: string, n1: string, b: string, n2: string)
    requires a == "Hi " && n1 == "UserName" && b == ", your email is " && n2 == "Email"
    ensures forall i :: 0 <= i < |a| ==> a[i] != '{'
    ensures forall i :: 0 <= i < |b| ==> b[i] != '{'
    ensures IsName(n1) && IsName(n2)
  {
  }

  /** Solver aid: the two-field example's rendered text, spelled out. */
  lemma TwoFieldsText(a: string, t1: string, b: string, t2: string)
    requires a == "Hi " && t1 == "张三" && b == ", your email is " && t2 == "test@example.com"
    ensures a + t1 + b + t2 == "Hi 张三, your email is test@example.com"
  {
    assert a + t1 == "Hi 张三";
    assert a + t1 + b == "Hi 张三, your email is ";
  }

  /** The parameters spell the template "Year: {{.Year}}"; the integer 2026 prints in decimal. */
  lemma RenderNumberField(a: string, name: string, b: string, params: map<string, Value>)
    requires a == "Year: " && name == "Year" && b == ""
    requires params == map["Year" := Int(2026)]
    ensures Render(a + "{{." + name + "}}" + b, params) == Success("Year: 2026")
  {
    RenderSubstitutes(a, name, b, params);
    assert NatText(2026) == "2026";
    assert FieldText(params, name) == "2026";
    assert a + "2026" + b == "Year: 2026";
  }

  /** The parameters spell the template "<h1>Welcome {{.UserName}}</h1>": markup around a field is copied verbatim. */
  lemma RenderHtmlField(a: string, name: string, b: string, params: map<string, Value>)
    requires a == "<h1>Welcome " && name == "UserName" && b == "</h1>"
    requires params == map["UserName" := Str("李四")]
    ensures Render(a + "{{." + name + "}}" + b, params) == Success("<h1>Welcome 李四</h1>")
  {
    RenderSubstitutes(a, name, b, params);
    assert FieldText(params, name) == "李四";
    assert a + "李四" + b == "<h1>Welcome 李四</h1>";
  }

  /** The parameters spell the template "Hello, {{.UserName", never closed: a render error. */
  lemma RenderUnclosedAction(a: string, u: string, params: map<string, Value>)
    requires a == "Hello, " && u == ".UserName"
    ensures Render(a + "{{" + u, params).Failure?
  {
    assert forall i :: 0 <= i < |u| ==> u[i] != '}';
    UnclosedActionFails(a, u, params);
  }
}
