/**
 * Creating a project: the name is validated, turned into a directory id
 * (trimmed, lower-cased, every character outside `a-z`, `0-9` and `-`
 * replaced by `-`, runs of `-` collapsed), refused when the id is taken, and
 * otherwise a directory with a `main.tex` titled with the name is written.
 */
module ProjectsRoute {
  import opened Text

  // ---------------------------------------------------------------------------
  // The id
  // ---------------------------------------------------------------------------

  /**
   * JavaScript `toLowerCase` on one code point. ASCII capitals map to their
   * small letters; KELVIN SIGN maps to `k` and LATIN CAPITAL LETTER I WITH
   * DOT ABOVE to `i` followed by COMBINING DOT ABOVE. Every other code point
   * is kept: its lower-case form, like itself, lies outside `a-z0-9-`.
   */
  function LowerChar(c: char): (r: string)
    ensures 'A' <= c <= 'Z' ==> |r| == 1 && 'a' <= r[0] <= 'z' && SmallFor(c, r[0])
    ensures c == '\U{212A}' ==> r == "k"
    ensures c == '\U{0130}' ==> r == "i\U{0307}"
    ensures !('A' <= c <= 'Z') && c != '\U{212A}' && c != '\U{0130}' ==> r == [c]
  {
    if 'A' <= c <= 'Z' then [(c as int + 32) as char]
    else if c == '\U{212A}' then "k"
    else if c == '\U{0130}' then "i\U{0307}"
    else [c]
  }

  /** `d` is the small letter in the alphabet position of the capital `c`, or `c` itself when it is no capital. */
  predicate SmallFor(c: char, d: char) {
    if 'A' <= c <= 'Z' then d as int - 'a' as int == c as int - 'A' as int else d == c
  }

  function ToLower(s: string): (r: string)
    ensures |r| >= |s|
  {
    if s == [] then [] else LowerChar(s[0]) + ToLower(s[1..])
  }

  /**
   * Without LATIN CAPITAL LETTER I WITH DOT ABOVE, the only code point whose
   * lower case is longer, lower-casing maps the text code point by code point.
   */
  lemma {:induction false} ToLowerPointwise(s: string)
    requires '\U{0130}' !in s
    ensures |ToLower(s)| == |s|
    ensures forall i :: 0 <= i < |s| ==> ToLower(s)[i] == LowerChar(s[i])[0]
  {
    if s != [] {
      assert forall c :: c in s[1..] ==> c in s;
      ToLowerPointwise(s[1..]);
      var t := ToLower(s[1..]);
      assert |LowerChar(s[0])| == 1;
      forall i | 1 <= i < |s| ensures ToLower(s)[i] == LowerChar(s[i])[0] {
        assert ToLower(s)[i] == t[i - 1];
        assert s[1..][i - 1] == s[i];
      }
    }
  }

  predicate IsIdChar(c: char) {
    ('a' <= c <= 'z') || ('0' <= c <= '9') || c == '-'
  }

  predicate IsIdText(s: string) {
    forall i :: 0 <= i < |s| ==> IsIdChar(s[i])
  }

  /** `replace(/[^a-z0-9-]/g, '-')`. */
  function ReplaceInvalid(s: string): (r: string)
    ensures |r| == |s|
    ensures IsIdText(r)
    ensures forall i :: 0 <= i < |s| ==> r[i] == (if IsIdChar(s[i]) then s[i] else '-')
  {
    if s == [] then [] else [if IsIdChar(s[0]) then s[0] else '-'] + ReplaceInvalid(s[1..])
  }

  predicate NoDoubleDash(s: string) {
    forall i :: 0 <= i < |s| - 1 ==> !(s[i] == '-' && s[i + 1] == '-')
  }

  /** `replace(/-+/g, '-')`: every run of dashes becomes a single dash. */
  function CollapseDashes(s: string): (r: string)
    ensures |r| <= |s|
    ensures s != [] ==> r != [] && r[0] == s[0]
    ensures forall i :: 0 <= i < |r| ==> r[i] in s
    ensures NoDoubleDash(r)
  {
    if |s| <= 1 then s
    else if s[0] == '-' && s[1] == '-' then CollapseDashes(s[1..])
    else
      var t := CollapseDashes(s[1..]);
      assert forall i :: 1 <= i < |t| + 1 ==> ([s[0]] + t)[i] == t[i - 1];
      [s[0]] + t
  }

  /** The dash at `i` follows another dash. */
  predicate RepeatsDash(s: string, i: nat) {
    0 < i < |s| && s[i - 1] == '-' && s[i] == '-'
  }

  /** The characters of `s` from `i` on, leaving out every dash that follows a dash. */
  function DropRepeatedDashes(s: string, i: nat): string
    decreases |s| - i
  {
    if i >= |s| then [] else (if RepeatsDash(s, i) then [] else [s[i]]) + DropRepeatedDashes(s, i + 1)
  }

  /** Past the first position, dropping from `s` and from its tail agree. */
  lemma {:induction false} DropShift(s: string, i: nat)
    requires |s| >= 1 && i >= 1
    ensures DropRepeatedDashes(s, i + 1) == DropRepeatedDashes(s[1..], i)
    decreases |s| - i
  {
    if i + 1 < |s| {
      assert s[1..][i] == s[i + 1] && s[1..][i - 1] == s[i];
      assert RepeatsDash(s, i + 1) == RepeatsDash(s[1..], i);
      DropShift(s, i + 1);
    }
  }

  /**
   * Collapsing keeps exactly the characters that do not repeat a dash: each
   * run of dashes leaves its first dash and everything else is kept, in order.
   */
  lemma {:induction false} CollapseIsFilter(s: string)
    ensures CollapseDashes(s) == DropRepeatedDashes(s, 0)
  {
    if |s| == 1 {
      assert DropRepeatedDashes(s, 0) == [s[0]] + DropRepeatedDashes(s, 1);
      assert s == [s[0]];
    } else if |s| > 1 {
      CollapseIsFilter(s[1..]);
      DropShift(s, 1);
      assert !RepeatsDash(s, 0) && !RepeatsDash(s[1..], 0);
      assert DropRepeatedDashes(s, 0) == [s[0]] + DropRepeatedDashes(s, 1);
      assert DropRepeatedDashes(s[1..], 0) == [s[1]] + DropRepeatedDashes(s, 2);
      if s[0] == '-' && s[1] == '-' {
        assert RepeatsDash(s, 1);
        assert DropRepeatedDashes(s, 1) == DropRepeatedDashes(s, 2);
      } else {
        assert !RepeatsDash(s, 1);
        assert DropRepeatedDashes(s, 1) == [s[1]] + DropRepeatedDashes(s, 2);
        CollapseCons(s);
      }
    }
  }

  /** The id of a project named `name`. */
  function ProjectId(name: string): string {
    CollapseDashes(ReplaceInvalid(ToLower(Trim(name))))
  }

  /** The characters of `s` other than `-`, in order. */
  function WithoutDashes(s: string): string {
    if s == [] then [] else (if s[0] == '-' then [] else [s[0]]) + WithoutDashes(s[1..])
  }

  /** Collapsing removes dashes only: every other character survives, in order. */
  lemma {:induction false} CollapseKeepsOthers(s: string)
    ensures WithoutDashes(CollapseDashes(s)) == WithoutDashes(s)
  {
    if |s| > 1 {
      CollapseKeepsOthers(s[1..]);
      if !(s[0] == '-' && s[1] == '-') {
        var t := CollapseDashes(s[1..]);
        assert ([s[0]] + t)[1..] == t;
      }
    }
  }

  lemma NoDoubleDashTail(s: string)
    requires s != [] && NoDoubleDash(s)
    ensures NoDoubleDash(s[1..])
  {
    forall i | 0 <= i < |s[1..]| - 1 ensures !(s[1..][i] == '-' && s[1..][i + 1] == '-') {
      assert s[1..][i] == s[i + 1] && s[1..][i + 1] == s[i + 2];
    }
  }

  /** Without a leading double dash the first character is kept and the rest collapsed. */
  lemma CollapseCons(s: string)
    requires |s| > 1 && !(s[0] == '-' && s[1] == '-')
    ensures CollapseDashes(s) == [s[0]] + CollapseDashes(s[1..])
  {
  }

  lemma DashInCons(c: char, t: string)
    ensures '-' in [c] + t <==> c == '-' || '-' in t
  {
    if '-' in t {
      var k :| 0 <= k < |t| && t[k] == '-';
      assert ([c] + t)[k + 1] == '-';
    }
  }

  /** A dash survives collapsing exactly when there was one. */
  lemma {:induction false} CollapseKeepsDash(s: string)
    ensures '-' in CollapseDashes(s) <==> '-' in s
  {
    if |s| > 1 {
      CollapseKeepsDash(s[1..]);
      assert s == [s[0]] + s[1..];
      DashInCons(s[0], s[1..]);
      if !(s[0] == '-' && s[1] == '-') {
        CollapseCons(s);
        DashInCons(s[0], CollapseDashes(s[1..]));
      } else {
        assert s[1..][0] == '-';
      }
    }
  }

  /** Text without a double dash is left alone. */
  lemma {:induction false} CollapseIdentity(s: string)
    requires NoDoubleDash(s)
    ensures CollapseDashes(s) == s
  {
    if |s| > 1 {
      NoDoubleDashTail(s);
      CollapseIdentity(s[1..]);
      assert !(s[0] == '-' && s[1] == '-');
      CollapseCons(s);
      assert s == [s[0]] + s[1..];
    }
  }

  lemma {:induction false} LowerIdentity(s: string)
    requires IsIdText(s)
    ensures ToLower(s) == s
  {
    if s != [] {
      assert IsIdChar(s[0]);
      LowerIdentity(s[1..]);
      assert s == [s[0]] + s[1..];
    }
  }

  lemma IdCharNotSpace(c: char)
    requires IsIdChar(c)
    ensures !IsSpace(c)
  {
  }

  lemma TrimIdentity(s: string)
    requires IsIdText(s)
    ensures Trim(s) == s
  {
    if s != [] {
      IdCharNotSpace(s[0]);
      assert TrimStart(s) == s;
      IdCharNotSpace(s[|s| - 1]);
      assert TrimEnd(s) == s;
    }
  }

  /** An id contains only `a-z`, `0-9` and `-`, and never two dashes in a row. */
  lemma IdAlphabet(name: string)
    ensures IsIdText(ProjectId(name))
    ensures NoDoubleDash(ProjectId(name))
  {
    var t := ReplaceInvalid(ToLower(Trim(name)));
    var r := CollapseDashes(t);
    forall i | 0 <= i < |r| ensures IsIdChar(r[i]) {
      var k :| 0 <= k < |t| && t[k] == r[i];
    }
  }

  /** Sanitising an id gives it back. */
  lemma IdIdempotent(name: string)
    ensures ProjectId(ProjectId(name)) == ProjectId(name)
  {
    var id := ProjectId(name);
    IdAlphabet(name);
    TrimIdentity(id);
    LowerIdentity(id);
    assert ReplaceInvalid(id) == id;
    CollapseIdentity(id);
  }

  /** A name that is not all white space never yields an empty id. */
  lemma IdNonEmpty(name: string)
    requires !AllSpace(name)
    ensures ProjectId(name) != []
  {
    TrimEmptyIff(name);
  }

  predicate IsAsciiAlnum(c: char) {
    ('a' <= c <= 'z') || ('A' <= c <= 'Z') || ('0' <= c <= '9')
  }

  lemma AlnumNotSpace(c: char)
    requires IsAsciiAlnum(c)
    ensures !IsSpace(c)
  {
  }

  /**
   * A name of ASCII letters and digits keeps its length as an id, and each
   * capital becomes the small letter in its place: `Hello` becomes `hello`.
   */
  lemma IdOfAlnumName(name: string)
    requires forall i :: 0 <= i < |name| ==> IsAsciiAlnum(name[i])
    ensures |ProjectId(name)| == |name|
    ensures forall i :: 0 <= i < |name| ==> SmallFor(name[i], ProjectId(name)[i])
  {
    if name != [] {
      AlnumNotSpace(name[0]);
      assert TrimStart(name) == name;
      AlnumNotSpace(name[|name| - 1]);
      assert TrimEnd(name) == name;
    }
    assert Trim(name) == name;
    assert '\U{0130}' !in name by {
      forall i | 0 <= i < |name| ensures name[i] != '\U{0130}' {
        assert IsAsciiAlnum(name[i]);
      }
    }
    ToLowerPointwise(name);
    var t := ToLower(name);
    forall i | 0 <= i < |t| ensures IsIdChar(t[i]) && t[i] != '-' && SmallFor(name[i], t[i]) {
      assert t[i] == LowerChar(name[i])[0];
      assert IsAsciiAlnum(name[i]);
    }
    var u := ReplaceInvalid(t);
    assert u == t;
    CollapseIdentity(t);
  }

  // ---------------------------------------------------------------------------
  // The request
  // ---------------------------------------------------------------------------

  /**
   * The `name` field of the request body: absent, a string, another falsy
   * value (`null`, `false`, `0`) or another truthy value (a number, an
   * object, an array), which has no `trim` method.
   */
  datatype NameField = Missing | Str(s: string) | Falsy | NonString

  /** The request body: JSON with a `name` field, or something that does not parse. */
  datatype Request = Unparsable | Json(name: NameField)

  datatype Body =
    | ErrorBody(error: string)
    | CreatedBody(id: string, name: string, message: string)

  datatype Response = Response(status: nat, body: Body)

  /**
   * What a request did: the response, the id directory it created (if it got
   * that far) and the text it wrote to that directory's `main.tex`.
   */
  datatype Outcome = Outcome(response: Response, createdDir: Option<string>, mainTex: Option<string>)

  const TemplateHead := "\\documentclass{article}\n\\usepackage{amsmath}\n\n"
  const TemplateTail := "\n\\author{Your Name}\n\\date{\\today}\n\n\\begin{document}\n\n\\maketitle\n\n"
    + "\\section{Introduction}\n\nWrite your content here...\n\n\\end{document}"

  /** The `main.tex` written into a new project, titled with the name. */
  function Template(name: string): string {
    TemplateHead + ("\\title{" + name + "}") + TemplateTail
  }

  /** The parts of a concatenation can be read back from it. */
  lemma ConcatParts(a: string, b: string, c: string)
    ensures (a + b + c)[..|a|] == a
    ensures (a + b + c)[|a|..|a| + |b|] == b
  {
  }

  lemma HeadIsArticle()
    ensures StartsWith(TemplateHead, "\\documentclass{article}")
  {
  }

  /** The template is an article whose title line carries the name as given. */
  lemma TemplateTitle(name: string)
    ensures StartsWith(Template(name), "\\documentclass{article}")
    ensures OccursAt(Template(name), "\\title{" + name + "}", |TemplateHead|)
  {
    var t := Template(name);
    ConcatParts(TemplateHead, "\\title{" + name + "}", TemplateTail);
    HeadIsArticle();
    var n := |"\\documentclass{article}"|;
    assert t[..n] == t[..|TemplateHead|][..n];
  }

  /**
   * POST to the projects endpoint. `existing` holds the entries already in
   * the projects directory; `mkdirOk` and `writeOk` say whether creating the
   * directory and writing `main.tex` succeed.
   */
  function CreateProject(req: Request, existing: set<string>, mkdirOk: bool, writeOk: bool): (r: Outcome)
    // A body that does not parse, or a name without `trim`, is a server error.
    ensures req.Unparsable? || req.name.NonString? ==>
      r == Outcome(Response(500, ErrorBody("Failed to create project")), None, None)
    // A missing, falsy or blank name is refused and nothing is written.
    ensures req.Json? && (req.name.Missing? || req.name.Falsy? || (req.name.Str? && AllSpace(req.name.s))) ==>
      r == Outcome(Response(400, ErrorBody("Project name is required")), None, None)
    // Otherwise the id is sanitised; a taken id is a conflict and nothing is written.
    ensures req.Json? && req.name.Str? && !AllSpace(req.name.s) && ProjectId(req.name.s) in existing ==>
      r == Outcome(Response(409, ErrorBody("Project already exists")), None, None)
    // A fresh id: the directory is created, then main.tex written with the untrimmed name.
    ensures req.Json? && req.name.Str? && !AllSpace(req.name.s) && ProjectId(req.name.s) !in existing ==>
      && r.createdDir == (if mkdirOk then Some(ProjectId(req.name.s)) else None)
      && r.mainTex == (if mkdirOk && writeOk then Some(Template(req.name.s)) else None)
      && r.response == if mkdirOk && writeOk
         then Response(200, CreatedBody(ProjectId(req.name.s), req.name.s, "Project created successfully"))
         else Response(500, ErrorBody("Failed to create project"))
    // Whatever happens, only a non-empty fresh id is ever created.
    ensures r.createdDir.Some? ==> r.createdDir.value != [] && r.createdDir.value !in existing
  {
    match req
    case Unparsable => Outcome(Response(500, ErrorBody("Failed to create project")), None, None)
    case Json(field) =>
      match field
      case Missing => Outcome(Response(400, ErrorBody("Project name is required")), None, None)
      case Falsy => Outcome(Response(400, ErrorBody("Project name is required")), None, None)
      case NonString => Outcome(Response(500, ErrorBody("Failed to create project")), None, None)
      case Str(name) =>
        TrimEmptyIff(name);
        if name == [] || Trim(name) == [] then
          Outcome(Response(400, ErrorBody("Project name is required")), None, None)
        else
          var id := ProjectId(name);
          IdNonEmpty(name);
          if id in existing then
            Outcome(Response(409, ErrorBody("Project already exists")), None, None)
          else if !mkdirOk then
            Outcome(Response(500, ErrorBody("Failed to create project")), None, None)
          else if !writeOk then
            Outcome(Response(500, ErrorBody("Failed to create project")), Some(id), None)
          else
            Outcome(Response(200, CreatedBody(id, name, "Project created successfully")), Some(id), Some(Template(name)))
  }
}
