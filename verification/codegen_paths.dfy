/** The SDK code generator as a compiler from OpenAPI path templates to format strings of
    four target languages (scripts/codegen-sdks.py), and what the generated expressions
    evaluate to. */
module CodegenPaths {
  import opened Options

  // ---- path templates ----

  datatype Piece = Lit(text: string) | Param(name: string)

  function RenderPiece(p: Piece): string {
    match p
    case Lit(text) => text
    case Param(name) => "{" + name + "}"
  }

  function Render(t: seq<Piece>): string {
    if t == [] then "" else RenderPiece(t[0]) + Render(t[1..])
  }

  function Names(t: seq<Piece>): seq<string> {
    if t == [] then []
    else (if t[0].Param? then [t[0].name] else []) + Names(t[1..])
  }

  predicate Covers(t: seq<Piece>, env: map<string, string>) {
    forall p :: p in t && p.Param? ==> p.name in env
  }

  // Direct substitution of the arguments into the template.
  function Subst(t: seq<Piece>, env: map<string, string>): string
    requires Covers(t, env)
  {
    if t == [] then ""
    else (match t[0] case Lit(text) => text case Param(name) => env[name]) + Subst(t[1..], env)
  }

  // \w; beyond ASCII every character is let through, which includes the letters \w matches.
  predicate IsWord(c: char) {
    'a' <= c <= 'z' || 'A' <= c <= 'Z' || '0' <= c <= '9' || c == '_' || c as int >= 128
  }

  predicate AllWord(s: string) {
    forall i :: 0 <= i < |s| ==> IsWord(s[i])
  }

  // No character that means something inside one of the generated string literals.
  predicate IsPlain(c: char) {
    c != '{' && c != '}' && c != '%' && c != '$' && c != '`' && c != '"' && c != '\\' && c != '\n'
  }

  predicate AllPlain(s: string) {
    forall i :: 0 <= i < |s| ==> IsPlain(s[i])
  }

  predicate AsciiWord(c: char) {
    IsWord(c) && c as int < 128
  }

  predicate IsName(name: string) {
    name != "" && forall i :: 0 <= i < |name| ==> AsciiWord(name[i])
  }

  predicate WellFormedPiece(p: Piece) {
    match p
    case Lit(text) => AllPlain(text)
    case Param(name) => IsName(name)
  }

  predicate WellFormed(t: seq<Piece>) {
    forall p :: p in t ==> WellFormedPiece(p)
  }

  // Plain literals, except that percent signs are let in.
  predicate PercentPiece(p: Piece) {
    match p
    case Lit(text) => forall i :: 0 <= i < |text| ==> IsPlain(text[i]) || text[i] == '%'
    case Param(name) => IsName(name)
  }

  predicate PercentFormed(t: seq<Piece>) {
    forall p :: p in t ==> PercentPiece(p)
  }

  // ---- the generator's helpers ----

  function WordSpan(s: string): (n: nat)
    ensures n <= |s|
  {
    if s == "" || !IsWord(s[0]) then 0 else 1 + WordSpan(s[1..])
  }

  function OpenSpan(s: string): (n: nat)
    ensures n <= |s|
  {
    if s == "" || s[0] == '}' then 0 else 1 + OpenSpan(s[1..])
  }

  // Length of a match of \{(\w+)\} at the front; 0 when there is none.
  function WordMatch(s: string): (n: nat)
    ensures n <= |s| && n != 1
  {
    if s == "" || s[0] != '{' then 0
    else
      var w := WordSpan(s[1..]);
      if w > 0 && w + 1 < |s| && s[w + 1] == '}' then w + 2 else 0
  }

  // Length of a match of \{[^}]+\} at the front; 0 when there is none.
  function AnyMatch(s: string): (n: nat)
    ensures n <= |s|
  {
    if s == "" || s[0] != '{' then 0
    else
      var w := OpenSpan(s[1..]);
      if w > 0 && w + 1 < |s| then w + 2 else 0
  }

  // re.findall(r"\{(\w+)\}", path)
  function PathParams(s: string): seq<string>
    decreases |s|
  {
    if s == "" then []
    else
      var n := WordMatch(s);
      if n > 0 then [s[1..n - 1]] + PathParams(s[n..]) else PathParams(s[1..])
  }

  // re.sub(r"\{[^}]+\}", mark, path): _go_path with "%s", _rust_path_fmt with "{}"
  function SubAny(s: string, mark: string): string
    decreases |s|
  {
    if s == "" then ""
    else
      var n := AnyMatch(s);
      if n > 0 then mark + SubAny(s[n..], mark) else [s[0]] + SubAny(s[1..], mark)
  }

  function GoPath(path: string): string { SubAny(path, "%s") }
  function RustPath(path: string): string { SubAny(path, "{}") }

  // re.sub(r"\{(\w+)\}", r"${\1}", path)
  function JsPath(s: string): string
    decreases |s|
  {
    if s == "" then ""
    else
      var n := WordMatch(s);
      if n > 0 then "${" + s[1..n - 1] + "}" + JsPath(s[n..]) else [s[0]] + JsPath(s[1..])
  }

  function PyPath(path: string): string { path }

  const RUST_RESERVED: set<string> := {"type", "match", "move", "mod", "ref", "trait", "impl", "use", "let",
    "self", "Self", "super", "crate", "fn", "if", "else", "for", "while",
    "loop", "return", "struct", "enum", "const", "static", "unsafe", "async",
    "await", "dyn", "where", "true", "false", "as", "in", "box", "pub"}

  function RustSafe(name: string): string {
    if name in RUST_RESERVED then name + "_" else name
  }

  // ---- what the target languages make of the literals ----

  function Prepend(s: string, r: Option<string>): Option<string> {
    match r
    case None => None
    case Some(v) => Some(s + v)
  }

  // Characters that end or escape a double-quoted literal are not evaluated.
  predicate Breaks(c: char) {
    c == '"' || c == '\\' || c == '\n'
  }

  // The body of a Python f-string.
  function EvalPy(s: string, env: map<string, string>): Option<string>
    decreases |s|
  {
    if s == "" then Some("")
    else if Breaks(s[0]) then None
    else if s[0] == '{' then
      if |s| > 1 && s[1] == '{' then Prepend("{", EvalPy(s[2..], env))
      else
        var w := OpenSpan(s[1..]);
        if w + 1 >= |s| || s[1..w + 1] !in env then None
        else Prepend(env[s[1..w + 1]], EvalPy(s[w + 2..], env))
    else if s[0] == '}' then
      if |s| > 1 && s[1] == '}' then Prepend("}", EvalPy(s[2..], env)) else None
    else Prepend([s[0]], EvalPy(s[1..], env))
  }

  // The body of a JavaScript template literal.
  function EvalJs(s: string, env: map<string, string>): Option<string>
    decreases |s|
  {
    if s == "" then Some("")
    else if s[0] == '`' || s[0] == '\\' then None
    else if s[0] == '$' && |s| > 1 && s[1] == '{' then
      var w := OpenSpan(s[2..]);
      if w + 2 >= |s| || s[2..w + 2] !in env then None
      else Prepend(env[s[2..w + 2]], EvalJs(s[w + 3..], env))
    else Prepend([s[0]], EvalJs(s[1..], env))
  }

  // fmt.Sprintf with string arguments; a wrong number of arguments has no value, and neither
  // have the verbs, flags and argument indexes the generator does not emit.
  function EvalGo(s: string, args: seq<string>): Option<string>
    decreases |s|
  {
    if s == "" then (if args == [] then Some("") else None)
    else if Breaks(s[0]) then None
    else if s[0] == '%' then
      if |s| == 1 then None
      else if s[1] == '%' then Prepend("%", EvalGo(s[2..], args))
      else if s[1] == 's' && args != [] then Prepend(args[0], EvalGo(s[2..], args[1..]))
      else None
    else Prepend([s[0]], EvalGo(s[1..], args))
  }

  // format! with positional arguments.
  function EvalRust(s: string, args: seq<string>): Option<string>
    decreases |s|
  {
    if s == "" then (if args == [] then Some("") else None)
    else if Breaks(s[0]) then None
    else if s[0] == '{' then
      if |s| > 1 && s[1] == '{' then Prepend("{", EvalRust(s[2..], args))
      else if |s| > 1 && s[1] == '}' && args != [] then Prepend(args[0], EvalRust(s[2..], args[1..]))
      else None
    else if s[0] == '}' then
      if |s| > 1 && s[1] == '}' then Prepend("}", EvalRust(s[2..], args)) else None
    else Prepend([s[0]], EvalRust(s[1..], args))
  }

  // A plain string literal, used when the path has no parameters.
  function EvalPlain(s: string): Option<string> {
    if exists i :: 0 <= i < |s| && Breaks(s[i]) then None else Some(s)
  }

  // ---- calling a generated method ----

  // The parameters of the signature bound to the call's arguments.
  function Bind(names: seq<string>, values: seq<string>): map<string, string>
    requires |names| == |values|
  {
    if names == [] then map[] else Bind(names[1..], values[1..])[names[0] := values[0]]
  }

  // The argument list of the generated call, evaluated in the method's scope.
  function Fetch(exprs: seq<string>, env: map<string, string>): Option<seq<string>> {
    if exprs == [] then Some([])
    else if exprs[0] !in env then None
    else
      match Fetch(exprs[1..], env)
      case None => None
      case Some(rest) => Some([env[exprs[0]]] + rest)
  }

  function Renamed(names: seq<string>): (r: seq<string>)
    ensures |r| == |names|
  {
    seq(|names|, i requires 0 <= i < |names| => RustSafe(names[i]))
  }

  // ---- which parameter lists compile ----

  predicate Distinct(names: seq<string>) {
    forall i, j :: 0 <= i < j < |names| ==> names[i] != names[j]
  }

  const PY_KEYWORDS: set<string> := {"False", "None", "True", "and", "as", "assert", "async", "await", "break", "class",
    "continue", "def", "del", "elif", "else", "except", "finally", "for", "from", "global", "if", "import", "in", "is",
    "lambda", "nonlocal", "not", "or", "pass", "raise", "return", "try", "while", "with", "yield"}

  const JS_RESERVED: set<string> := {"arguments", "await", "break", "case", "catch", "class", "const", "continue",
    "debugger", "default", "delete", "do", "else", "enum", "eval", "export", "extends", "false", "finally", "for",
    "function", "if", "implements", "import", "in", "instanceof", "interface", "let", "new", "null", "package",
    "private", "protected", "public", "return", "static", "super", "switch", "this", "throw", "true", "try", "typeof",
    "var", "void", "while", "with", "yield"}

  const GO_KEYWORDS: set<string> := {"break", "case", "chan", "const", "continue", "default", "defer", "else",
    "fallthrough", "for", "func", "go", "goto", "if", "import", "interface", "map", "package", "range", "return",
    "select", "struct", "switch", "type", "var"}

  // Reserved words of Rust that the generator does not rename.
  const RUST_KEPT: set<string> := {"abstract", "become", "break", "continue", "do", "extern", "final", "macro",
    "override", "priv", "try", "typeof", "unsized", "virtual", "yield"}

  // What the generator knows of an operation besides its path.
  datatype Call = Call(hasBody: bool, query: seq<string>, isStream: bool)

  const PY_RESERVED: set<string> := {"class", "from", "import", "return", "lambda", "global", "None", "True", "False",
    "and", "or", "not", "if", "else", "for", "while", "pass", "yield", "def"}

  function PySafe(name: string): string {
    if name in PY_RESERVED then name + "_" else name
  }

  // The names a path parameter cannot have: those the language refuses, and those the rest of
  // the signature or the body of the method uses.
  function PyTaken(c: Call): set<string> {
    PY_KEYWORDS + {"__debug__", "self"} + (if c.hasBody then {"data"} else {}) + (set q | q in c.query :: PySafe(q))
  }

  function JsTaken(c: Call): set<string> {
    JS_RESERVED + (if c.hasBody then {"data"} else {}) + (if c.query != [] then {"query"} else {})
  }

  // The query argument is `nil` when there is no query, which then has to be a map.
  function GoTaken(c: Call): set<string> {
    GO_KEYWORDS + {"_", "r", "fmt"} + (if c.hasBody then {"data"} else {}) + (if c.query != [] then {"query"} else {"nil"})
  }

  // A parameter cannot shadow a variant of the prelude.
  function RustTaken(c: Call): set<string> {
    RUST_KEPT + {"_", "None", "Some", "Ok", "Err"} + {if c.isStream then "do_stream" else "do_req"} +
    (if c.hasBody then {"data"} else {}) + (set q | q in c.query :: RustSafe(q))
  }

  predicate Declares(names: seq<string>, taken: set<string>) {
    && Distinct(names)
    && forall i :: 0 <= i < |names| ==> names[i] != "" && !('0' <= names[i][0] <= '9') && names[i] !in taken
  }

  // ---- the URL a generated method requests; none when its parameters do not compile ----

  function PyUrl(path: string, values: seq<string>, taken: set<string>): Option<string> {
    var params := PathParams(path);
    if |params| != |values| || !Declares(params, taken) then None
    else if params == [] then EvalPlain(path)
    else EvalPy(PyPath(path), Bind(params, values))
  }

  function JsUrl(path: string, values: seq<string>, taken: set<string>): Option<string> {
    var params := PathParams(path);
    if |params| != |values| || !Declares(params, taken) then None
    else if params == [] then EvalPlain(path)
    else EvalJs(JsPath(path), Bind(params, values))
  }

  function GoUrl(path: string, values: seq<string>, taken: set<string>): Option<string> {
    var params := PathParams(path);
    if |params| != |values| || !Declares(params, taken) then None
    else if params == [] then EvalPlain(path)
    else
      match Fetch(params, Bind(params, values))
      case None => None
      case Some(args) => EvalGo(GoPath(path), args)
  }

  function RustUrl(path: string, values: seq<string>, taken: set<string>): Option<string> {
    var params := PathParams(path);
    if |params| != |values| || !Declares(Renamed(params), taken) then None
    else if params == [] then EvalPlain(path)
    else
      match Fetch(Renamed(params), Bind(Renamed(params), values))
      case None => None
      case Some(args) => EvalRust(RustPath(path), args)
  }

  // ---- scanning a rendered template ----

  lemma {:induction false} SpanOfName(name: string, s: string)
    requires AllWord(name)
    ensures WordSpan(name + "}" + s) == |name| && OpenSpan(name + "}" + s) == |name|
  {
    if name == "" {
      assert name + "}" + s == "}" + s;
    } else {
      SpanOfName(name[1..], s);
      assert (name + "}" + s)[1..] == name[1..] + "}" + s;
    }
  }

  lemma MatchOfParam(name: string, s: string)
    requires name != "" && AllWord(name)
    ensures var path := "{" + name + "}" + s;
            && WordMatch(path) == |name| + 2 == AnyMatch(path)
            && path[1..|name| + 1] == name && path[|name| + 2..] == s
  {
    SpanOfName(name, s);
    var path := "{" + name + "}" + s;
    assert path[1..] == name + "}" + s;
    assert path[|name| + 1] == '}';
  }

  predicate NoBrace(s: string) {
    forall i :: 0 <= i < |s| ==> s[i] != '{'
  }

  lemma {:induction false} ParamsLiteral(text: string, s: string)
    requires NoBrace(text)
    ensures PathParams(text + s) == PathParams(s)
  {
    if text == "" {
      assert text + s == s;
    } else {
      ParamsLiteral(text[1..], s);
      assert (text + s)[1..] == text[1..] + s;
      assert WordMatch(text + s) == 0;
    }
  }

  lemma Uncons(text: string, s: string)
    requires text != ""
    ensures (text + s)[0] == text[0] && (text + s)[1..] == text[1..] + s
    ensures text + s == [text[0]] + (text[1..] + s)
  {
  }

  lemma {:induction false} SubLiteral(text: string, s: string, mark: string)
    requires NoBrace(text)
    ensures SubAny(text + s, mark) == text + SubAny(s, mark)
  {
    if text == "" {
      assert text + s == s;
    } else {
      SubLiteral(text[1..], s, mark);
      Uncons(text, s);
      Uncons(text, SubAny(s, mark));
      assert AnyMatch(text + s) == 0;
    }
  }

  lemma {:induction false} JsLiteral(text: string, s: string)
    requires NoBrace(text)
    ensures JsPath(text + s) == text + JsPath(s)
  {
    if text == "" {
      assert text + s == s;
    } else {
      JsLiteral(text[1..], s);
      assert (text + s)[1..] == text[1..] + s;
      assert WordMatch(text + s) == 0;
      assert [text[0]] + (text[1..] + JsPath(s)) == text + JsPath(s);
    }
  }

  lemma ScanParam(name: string, s: string, mark: string)
    requires name != "" && AllWord(name)
    ensures var path := "{" + name + "}" + s;
            && PathParams(path) == [name] + PathParams(s)
            && SubAny(path, mark) == mark + SubAny(s, mark)
            && JsPath(path) == "${" + name + "}" + JsPath(s)
  {
    MatchOfParam(name, s);
  }

  lemma PieceParams(p: Piece, s: string)
    requires WellFormedPiece(p)
    ensures PathParams(RenderPiece(p) + s) == (if p.Param? then [p.name] else []) + PathParams(s)
  {
    match p
    case Lit(text) => ParamsLiteral(text, s);
    case Param(name) => ParamsFirst(name, s);
  }

  /** The parameters found in a rendered template are its placeholders, in order. */
  lemma {:induction false} ParamsOfRender(t: seq<Piece>)
    requires WellFormed(t)
    ensures PathParams(Render(t)) == Names(t)
  {
    if t != [] {
      ParamsOfRender(t[1..]);
      assert t[0] in t;
      PieceParams(t[0], Render(t[1..]));
    }
  }

  lemma ParamsFirst(name: string, s: string)
    requires name != "" && AllWord(name)
    ensures PathParams("{" + name + "}" + s) == [name] + PathParams(s)
  {
    MatchOfParam(name, s);
  }

  // ---- the four evaluators ----

  lemma PrependNothing(r: Option<string>)
    ensures Prepend("", r) == r
  {
    assert r.Some? ==> "" + r.value == r.value;
  }

  lemma PrependTwice(text: string, r: Option<string>)
    requires text != ""
    ensures Prepend([text[0]], Prepend(text[1..], r)) == Prepend(text, r)
  {
    assert r.Some? ==> [text[0]] + (text[1..] + r.value) == text + r.value;
  }

  lemma {:induction false} PyLiteral(text: string, s: string, env: map<string, string>)
    requires AllPlain(text)
    ensures EvalPy(text + s, env) == Prepend(text, EvalPy(s, env))
  {
    if text == "" {
      assert text + s == s;
      PrependNothing(EvalPy(s, env));
    } else {
      PyLiteral(text[1..], s, env);
      assert (text + s)[1..] == text[1..] + s;
      PrependTwice(text, EvalPy(s, env));
    }
  }

  lemma {:induction false} JsTemplateLiteral(text: string, s: string, env: map<string, string>)
    requires AllPlain(text)
    ensures EvalJs(text + s, env) == Prepend(text, EvalJs(s, env))
  {
    if text == "" {
      assert text + s == s;
      PrependNothing(EvalJs(s, env));
    } else {
      JsTemplateLiteral(text[1..], s, env);
      assert (text + s)[1..] == text[1..] + s;
      PrependTwice(text, EvalJs(s, env));
    }
  }

  lemma {:induction false} GoLiteral(text: string, s: string, args: seq<string>)
    requires AllPlain(text)
    ensures EvalGo(text + s, args) == Prepend(text, EvalGo(s, args))
  {
    if text == "" {
      assert text + s == s;
      PrependNothing(EvalGo(s, args));
    } else {
      GoLiteral(text[1..], s, args);
      assert (text + s)[1..] == text[1..] + s;
      PrependTwice(text, EvalGo(s, args));
    }
  }

  lemma {:induction false} RustLiteral(text: string, s: string, args: seq<string>)
    requires AllPlain(text)
    ensures EvalRust(text + s, args) == Prepend(text, EvalRust(s, args))
  {
    if text == "" {
      assert text + s == s;
      PrependNothing(EvalRust(s, args));
    } else {
      RustLiteral(text[1..], s, args);
      assert (text + s)[1..] == text[1..] + s;
      PrependTwice(text, EvalRust(s, args));
    }
  }

  lemma {:induction false} EvalParam(name: string, s: string, env: map<string, string>)
    requires name != "" && AllWord(name) && name in env
    ensures EvalPy("{" + name + "}" + s, env) == Prepend(env[name], EvalPy(s, env))
    ensures EvalJs("${" + name + "}" + s, env) == Prepend(env[name], EvalJs(s, env))
  {
    SpanOfName(name, s);
    var py, js := "{" + name + "}" + s, "${" + name + "}" + s;
    assert py[1] == name[0];
    assert py[1..] == name + "}" + s && py[1..|name| + 1] == name && py[|name| + 2..] == s;
    assert js[2..] == name + "}" + s && js[2..|name| + 2] == name && js[|name| + 3..] == s;
  }

  lemma EvalMark(s: string, args: seq<string>)
    requires args != []
    ensures EvalGo("%s" + s, args) == Prepend(args[0], EvalGo(s, args[1..]))
    ensures EvalRust("{}" + s, args) == Prepend(args[0], EvalRust(s, args[1..]))
  {
    assert ("%s" + s)[2..] == s && ("{}" + s)[2..] == s;
  }

  /** Python and JavaScript: the generated literal substitutes by name. */
  lemma {:induction false} EvalByName(t: seq<Piece>, env: map<string, string>)
    requires WellFormed(t) && Covers(t, env)
    ensures EvalPy(PyPath(Render(t)), env) == Some(Subst(t, env))
    ensures EvalJs(JsPath(Render(t)), env) == Some(Subst(t, env))
  {
    if t != [] {
      EvalByName(t[1..], env);
      assert t[0] in t;
      var s := Render(t[1..]);
      match t[0]
      case Lit(text) =>
        JsLiteral(text, s);
        PyLiteral(text, s, env);
        JsTemplateLiteral(text, JsPath(s), env);
      case Param(name) =>
        ScanParam(name, s, "");
        EvalParam(name, s, env);
        EvalParam(name, JsPath(s), env);
    }
  }

  function ArgsOf(t: seq<Piece>, env: map<string, string>): seq<string>
    requires Covers(t, env)
  {
    if t == [] then []
    else (if t[0].Param? then [env[t[0].name]] else []) + ArgsOf(t[1..], env)
  }

  /** Go and Rust: the generated format string consumes exactly the arguments, in order. */
  lemma {:induction false} EvalByPosition(t: seq<Piece>, env: map<string, string>)
    requires WellFormed(t) && Covers(t, env)
    ensures EvalGo(GoPath(Render(t)), ArgsOf(t, env)) == Some(Subst(t, env))
    ensures EvalRust(RustPath(Render(t)), ArgsOf(t, env)) == Some(Subst(t, env))
  {
    if t != [] {
      EvalByPosition(t[1..], env);
      assert t[0] in t;
      var s, rest := Render(t[1..]), ArgsOf(t[1..], env);
      match t[0]
      case Lit(text) =>
        SubLiteral(text, s, "%s");
        SubLiteral(text, s, "{}");
        GoLiteral(text, GoPath(s), rest);
        RustLiteral(text, RustPath(s), rest);
        assert [] + rest == rest;
      case Param(name) =>
        ScanParam(name, s, "%s");
        ScanParam(name, s, "{}");
        assert ArgsOf(t, env)[1..] == rest;
        EvalMark(GoPath(s), ArgsOf(t, env));
        EvalMark(RustPath(s), ArgsOf(t, env));
    }
  }

  // ---- binding arguments ----

  lemma {:induction false} BindAt(names: seq<string>, values: seq<string>, i: nat)
    requires |names| == |values| && Distinct(names) && i < |names|
    ensures names[i] in Bind(names, values) && Bind(names, values)[names[i]] == values[i]
  {
    if i > 0 {
      BindAt(names[1..], values[1..], i - 1);
      assert names[1..][i - 1] == names[i];
    }
  }

  lemma {:induction false} BindHas(names: seq<string>, values: seq<string>, i: nat)
    requires |names| == |values| && i < |names|
    ensures names[i] in Bind(names, values)
  {
    if i > 0 { BindHas(names[1..], values[1..], i - 1); }
  }

  lemma {:induction false} FetchAll(names: seq<string>, values: seq<string>, env: map<string, string>)
    requires |names| == |values|
    requires forall i :: 0 <= i < |names| ==> names[i] in env && env[names[i]] == values[i]
    ensures Fetch(names, env) == Some(values)
  {
    if names != [] {
      FetchAll(names[1..], values[1..], env);
      assert values == [values[0]] + values[1..];
    }
  }

  lemma FetchBound(names: seq<string>, values: seq<string>)
    requires |names| == |values| && Distinct(names)
    ensures Fetch(names, Bind(names, values)) == Some(values)
  {
    forall i | 0 <= i < |names| ensures names[i] in Bind(names, values) && Bind(names, values)[names[i]] == values[i] {
      BindAt(names, values, i);
    }
    FetchAll(names, values, Bind(names, values));
  }

  lemma {:induction false} NameIndex(t: seq<Piece>, p: Piece) returns (i: nat)
    requires p in t && p.Param?
    ensures i < |Names(t)| && Names(t)[i] == p.name
  {
    if t[0] == p {
      i := 0;
    } else {
      assert p in t[1..];
      i := NameIndex(t[1..], p);
      if t[0].Param? {
        assert Names(t) == [t[0].name] + Names(t[1..]);
        i := i + 1;
      } else {
        assert Names(t) == [] + Names(t[1..]);
      }
    }
  }

  lemma NamesBound(t: seq<Piece>, values: seq<string>)
    requires |Names(t)| == |values|
    ensures Covers(t, Bind(Names(t), values))
  {
    forall p | p in t && p.Param? ensures p.name in Bind(Names(t), values) {
      var i := NameIndex(t, p);
      BindHas(Names(t), values, i);
    }
  }

  lemma {:induction false} ArgsAreFetched(t: seq<Piece>, env: map<string, string>)
    requires Covers(t, env)
    ensures Fetch(Names(t), env) == Some(ArgsOf(t, env))
  {
    if t != [] {
      ArgsAreFetched(t[1..], env);
      if t[0].Param? {
        assert Names(t)[0] == t[0].name && Names(t)[1..] == Names(t[1..]);
      } else {
        assert [] + Names(t[1..]) == Names(t[1..]) && [] + ArgsOf(t[1..], env) == ArgsOf(t[1..], env);
      }
    }
  }

  lemma ArgsAreValues(t: seq<Piece>, values: seq<string>)
    requires |Names(t)| == |values| && Distinct(Names(t))
    requires Covers(t, Bind(Names(t), values))
    ensures ArgsOf(t, Bind(Names(t), values)) == values
  {
    ArgsAreFetched(t, Bind(Names(t), values));
    FetchBound(Names(t), values);
  }

  lemma {:induction false} NoParams(t: seq<Piece>, env: map<string, string>)
    requires PercentFormed(t) && Names(t) == [] && Covers(t, env)
    ensures EvalPlain(Render(t)) == Some(Subst(t, env))
  {
    if t != [] {
      assert t[0] in t && t[0].Lit?;
      NoParams(t[1..], env);
      var s := Render(t[1..]);
      assert forall i :: 0 <= i < |s| ==> !Breaks(s[i]);
    }
  }

  lemma PyAgreesIf(t: seq<Piece>, values: seq<string>, taken: set<string>)
    requires WellFormed(t) && |values| == |Names(t)|
    ensures Covers(t, Bind(Names(t), values))
    ensures PyUrl(Render(t), values, taken) == (if Declares(Names(t), taken) then Some(Subst(t, Bind(Names(t), values))) else None)
  {
    ParamsOfRender(t);
    NamesBound(t, values);
    var env := Bind(Names(t), values);
    if Names(t) == [] {
      NoParams(t, env);
    } else {
      EvalByName(t, env);
    }
  }

  lemma JsAgreesIf(t: seq<Piece>, values: seq<string>, taken: set<string>)
    requires WellFormed(t) && |values| == |Names(t)|
    ensures Covers(t, Bind(Names(t), values))
    ensures JsUrl(Render(t), values, taken) == (if Declares(Names(t), taken) then Some(Subst(t, Bind(Names(t), values))) else None)
  {
    ParamsOfRender(t);
    NamesBound(t, values);
    var env := Bind(Names(t), values);
    if Names(t) == [] {
      NoParams(t, env);
    } else {
      EvalByName(t, env);
    }
  }

  lemma GoAgreesIf(t: seq<Piece>, values: seq<string>, taken: set<string>)
    requires WellFormed(t) && |values| == |Names(t)|
    ensures Covers(t, Bind(Names(t), values))
    ensures GoUrl(Render(t), values, taken) == (if Declares(Names(t), taken) then Some(Subst(t, Bind(Names(t), values))) else None)
  {
    ParamsOfRender(t);
    NamesBound(t, values);
    var env := Bind(Names(t), values);
    if Names(t) == [] {
      NoParams(t, env);
    } else {
      EvalByPosition(t, env);
      if Declares(Names(t), taken) {
        ArgsAreValues(t, values);
        FetchBound(Names(t), values);
      }
    }
  }

  lemma RustAgreesIf(t: seq<Piece>, values: seq<string>, taken: set<string>)
    requires WellFormed(t) && |values| == |Names(t)|
    ensures Covers(t, Bind(Names(t), values))
    ensures RustUrl(Render(t), values, taken) == (if Declares(Renamed(Names(t)), taken) then Some(Subst(t, Bind(Names(t), values))) else None)
  {
    ParamsOfRender(t);
    NamesBound(t, values);
    var env := Bind(Names(t), values);
    if Names(t) == [] {
      NoParams(t, env);
    } else {
      EvalByPosition(t, env);
      if Declares(Renamed(Names(t)), taken) {
        RenamedDistinct(Names(t));
        ArgsAreValues(t, values);
        FetchBound(Renamed(Names(t)), values);
      }
    }
  }

  lemma RenamedDistinct(names: seq<string>)
    requires Distinct(Renamed(names))
    ensures Distinct(names)
  {
    forall i, j | 0 <= i < j < |names| ensures names[i] != names[j] {
      assert Renamed(names)[i] != Renamed(names)[j];
    }
  }

  /** For every template with plain literals, each of the four SDKs requests the URL of direct
      substitution, with as many placeholders as arguments, if and only if its path parameters
      compile: no name repeated, reserved, or used otherwise in the method. */
  lemma SdksAgreeIff(t: seq<Piece>, values: seq<string>, c: Call)
    requires WellFormed(t) && |values| == |Names(t)|
    ensures Covers(t, Bind(Names(t), values))
    ensures var url, path := Some(Subst(t, Bind(Names(t), values))), Render(t);
            && (PyUrl(path, values, PyTaken(c)) == url <==> Declares(Names(t), PyTaken(c)))
            && (JsUrl(path, values, JsTaken(c)) == url <==> Declares(Names(t), JsTaken(c)))
            && (GoUrl(path, values, GoTaken(c)) == url <==> Declares(Names(t), GoTaken(c)))
            && (RustUrl(path, values, RustTaken(c)) == url <==> Declares(Renamed(Names(t)), RustTaken(c)))
  {
    PyAgreesIf(t, values, PyTaken(c));
    JsAgreesIf(t, values, JsTaken(c));
    GoAgreesIf(t, values, GoTaken(c));
    RustAgreesIf(t, values, RustTaken(c));
  }

  // The path "/api/x/{name}".
  function OneParam(name: string): seq<Piece> {
    [Lit("/api/x/"), Param(name)]
  }

  lemma OneParamShape(name: string)
    requires IsName(name)
    ensures WellFormed(OneParam(name)) && Names(OneParam(name)) == [name]
  {
    var t := OneParam(name);
    assert t[1..] == [Param(name)] && t[1..][1..] == [];
    assert AllPlain("/api/x/");
    assert Names(t[1..][1..]) == [];
    assert Names(t[1..]) == [name] + [] == [name];
    assert Names(t) == [] + [name] == [name];
  }

  /** The generator does not escape `from` in Python, so such a method never compiles; */
  lemma PythonBreaksOnFrom(value: string, c: Call)
    ensures PyUrl(Render(OneParam("from")), [value], PyTaken(c)) == None
  {
    OneParamShape("from");
    PyAgreesIf(OneParam("from"), [value], PyTaken(c));
    assert ["from"][0] in PY_KEYWORDS;
  }

  /** nor `default` in JavaScript; */
  lemma JavaScriptBreaksOnDefault(value: string, c: Call)
    ensures JsUrl(Render(OneParam("default")), [value], JsTaken(c)) == None
  {
    OneParamShape("default");
    JsAgreesIf(OneParam("default"), [value], JsTaken(c));
    assert ["default"][0] in JS_RESERVED;
  }

  /** nor `type` in Go; */
  lemma GoBreaksOnType(value: string, c: Call)
    ensures GoUrl(Render(OneParam("type")), [value], GoTaken(c)) == None
  {
    OneParamShape("type");
    GoAgreesIf(OneParam("type"), [value], GoTaken(c));
    assert ["type"][0] in GO_KEYWORDS;
  }

  lemma OkIsKept()
    ensures Renamed(["Ok"])[0] == "Ok"
  {
    forall word | word in RUST_RESERVED ensures word != "Ok" {
      assert word[0] != 'O';
    }
  }

  /** nor, though it renames reserved words there, `Ok` in Rust. */
  lemma RustBreaksOnOk(value: string, c: Call)
    ensures RustUrl(Render(OneParam("Ok")), [value], RustTaken(c)) == None
  {
    OneParamShape("Ok");
    RustAgreesIf(OneParam("Ok"), [value], RustTaken(c));
    OkIsKept();
  }

  // ---- percent signs ----

  function Percents(s: string): nat {
    if s == "" then 0 else (if s[0] == '%' then 1 else 0) + Percents(s[1..])
  }

  function LitPercents(t: seq<Piece>): nat {
    if t == [] then 0 else (if t[0].Lit? then Percents(t[0].text) else 0) + LitPercents(t[1..])
  }

  function LitLength(t: seq<Piece>): nat {
    if t == [] then 0 else (if t[0].Lit? then |t[0].text| else 0) + LitLength(t[1..])
  }

  function TotalLength(args: seq<string>): nat {
    if args == [] then 0 else |args[0]| + TotalLength(args[1..])
  }

  lemma {:induction false} PercentsAppend(a: string, b: string)
    ensures Percents(a + b) == Percents(a) + Percents(b)
  {
    if a == "" {
      assert a + b == b;
    } else {
      PercentsAppend(a[1..], b);
      assert (a + b)[1..] == a[1..] + b;
    }
  }

  /** Sprintf's bookkeeping: a formatted result is as long as its format and arguments say,
      less one for every doubled percent sign. */
  lemma {:induction false} SprintfLength(f: string, args: seq<string>)
    requires EvalGo(f, args).Some?
    ensures 2 * |EvalGo(f, args).value| + (Percents(f) - |args|) == 2 * (|f| - 2 * |args| + TotalLength(args))
    ensures Percents(f) >= |args|
    decreases |f|
  {
    if f != "" {
      if f[0] == '%' {
        assert f[1..][1..] == f[2..];
        if f[1] == '%' {
          SprintfLength(f[2..], args);
        } else {
          SprintfLength(f[2..], args[1..]);
        }
      } else {
        SprintfLength(f[1..], args);
      }
    }
  }

  lemma {:induction false} GoShape(t: seq<Piece>, env: map<string, string>)
    requires PercentFormed(t) && Covers(t, env)
    ensures |GoPath(Render(t))| == LitLength(t) + 2 * |Names(t)|
    ensures Percents(GoPath(Render(t))) == LitPercents(t) + |Names(t)|
    ensures |Subst(t, env)| == LitLength(t) + TotalLength(ArgsOf(t, env))
    ensures PathParams(Render(t)) == Names(t)
  {
    if t != [] {
      GoShape(t[1..], env);
      assert t[0] in t;
      var s := Render(t[1..]);
      match t[0]
      case Lit(text) =>
        SubLiteral(text, s, "%s");
        ParamsLiteral(text, s);
        PercentsAppend(text, GoPath(s));
        assert [] + ArgsOf(t[1..], env) == ArgsOf(t[1..], env);
      case Param(name) =>
        ScanParam(name, s, "%s");
        PercentsAppend("%s", GoPath(s));
        assert Percents("%s") == 1;
        assert ArgsOf(t, env)[1..] == ArgsOf(t[1..], env);
    }
  }

  lemma {:induction false} PlainHasNone(s: string)
    ensures Percents(s) == 0 <==> forall i :: 0 <= i < |s| ==> s[i] != '%'
  {
    if s != "" { PlainHasNone(s[1..]); }
  }

  lemma {:induction false} NoPercentsIsWellFormed(t: seq<Piece>)
    requires PercentFormed(t) && LitPercents(t) == 0
    ensures WellFormed(t)
  {
    if t != [] {
      NoPercentsIsWellFormed(t[1..]);
      assert t[0] in t;
      if t[0].Lit? { PlainHasNone(t[0].text); }
    }
  }

  // The Go method requests the URL of direct substitution.
  predicate GoRight(t: seq<Piece>, values: seq<string>, taken: set<string>)
    requires |values| == |Names(t)| && Covers(t, Bind(Names(t), values))
  {
    GoUrl(Render(t), values, taken) == Some(Subst(t, Bind(Names(t), values)))
  }

  lemma GoWithParams(t: seq<Piece>, values: seq<string>, taken: set<string>)
    requires PercentFormed(t) && |values| == |Names(t)| && Names(t) != [] && Declares(Names(t), taken)
    ensures Covers(t, Bind(Names(t), values)) && (GoRight(t, values, taken) <==> LitPercents(t) == 0)
  {
    NamesBound(t, values);
    var env := Bind(Names(t), values);
    GoShape(t, env);
    ArgsAreValues(t, values);
    FetchBound(Names(t), values);
    if LitPercents(t) == 0 {
      NoPercentsIsWellFormed(t);
      EvalByPosition(t, env);
    } else if EvalGo(GoPath(Render(t)), values).Some? {
      SprintfLength(GoPath(Render(t)), values);
    }
  }

  lemma GoWithoutParams(t: seq<Piece>, taken: set<string>)
    requires PercentFormed(t) && Names(t) == []
    ensures Covers(t, Bind(Names(t), [])) && GoRight(t, [], taken)
  {
    NamesBound(t, []);
    GoShape(t, map[]);
    NoParams(t, map[]);
  }

  /** When its parameters compile, the Go method requests the right URL for all arguments if and
      only if the path has no parameters or no literal part of it contains a percent sign. */
  lemma GoAgreesIff(t: seq<Piece>, taken: set<string>)
    requires PercentFormed(t) && Declares(Names(t), taken)
    ensures forall values: seq<string> :: |values| == |Names(t)| ==> Covers(t, Bind(Names(t), values))
    ensures (forall values: seq<string> :: |values| == |Names(t)| ==> GoRight(t, values, taken)) <==>
            Names(t) == [] || LitPercents(t) == 0
  {
    forall values: seq<string> | |values| == |Names(t)|
      ensures Covers(t, Bind(Names(t), values))
      ensures GoRight(t, values, taken) <==> Names(t) == [] || LitPercents(t) == 0
    {
      if Names(t) == [] {
        GoWithoutParams(t, taken);
      } else {
        GoWithParams(t, values, taken);
      }
    }
    var some := seq(|Names(t)|, i => "");
    assert |some| == |Names(t)|;
  }
}
