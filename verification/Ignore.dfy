/** Repository ignore rules: reading rule files, ordering the rules, deciding a path. */
module Ignore {
  import opened Wrappers
  import opened Glob
  import opened Strings
  import Sorting

  // ---- Reading one line -----------------------------------------------------------------

  function TrimStartSlashes(s: string): string {
    if s != "" && s[0] == '/' then TrimStartSlashes(s[1..]) else s
  }

  function TrimEndSlashes(s: string): string {
    if s != "" && s[|s| - 1] == '/' then TrimEndSlashes(s[..|s| - 1]) else s
  }

  /** What a line says before its glob is compiled. */
  datatype Pattern = Pattern(negate: bool, onlyDirectories: bool, anchored: bool, glob: string)

  function ParseLine(line: string): Option<Pattern> {
    ParseTrimmed(Trim(line))
  }

  function ParseTrimmed(line: string): Option<Pattern> {
    if line == "" then None
    else
      var escaped := |line| > 1 && line[0] == '\\' && (line[1] == '#' || line[1] == '!');
      var negate := line[0] == '!';
      var raw := if escaped || negate then line[1..] else line;
      if raw != "" && raw[0] == '#' && !("\\#" <= line) then None
      else
        var body := TrimEndSlashes(raw);
        if body == "" then None
        else
          var glob := TrimStartSlashes(body);
          Some(Pattern(negate, raw[|raw| - 1] == '/', body[0] == '/' || '/' in glob, glob))
  }

  /** A pattern body with none of the marks a line may carry. */
  predicate IsPlain(body: string) {
    && body != "" && !IsWhitespace(body[0]) && !IsWhitespace(body[|body| - 1])
    && body[0] != '#' && body[0] != '!' && body[0] != '\\' && body[|body| - 1] != '/'
  }

  /** What each mark on a line means: white space around it is dropped, `!` negates, a final
      slash asks for a directory, `#` comments the line out unless a backslash precedes it, and
      any slash before the last character anchors the glob. */
  lemma ParseLineMarks(body: string, before: string, after: string)
    requires IsPlain(body)
    requires forall c :: c in before || c in after ==> IsWhitespace(c)
    ensures var glob := TrimStartSlashes(body);
            && glob != "" && glob[0] != '/'
            && ParseLine(before + body + after) == Some(Pattern(false, false, '/' in body, glob))
            && ParseLine(before + ("!" + body) + after) == Some(Pattern(true, false, '/' in body, glob))
            && ParseLine(before + (body + "/") + after) == Some(Pattern(false, true, '/' in body, glob))
            && ParseLine(before + ("#" + body) + after) == None
            && ParseLine(before + ("\\#" + body) + after) == Some(Pattern(false, false, '/' in body, "#" + body))
            && ParseLine(before + ("\\!" + body) + after) == Some(Pattern(false, false, '/' in body, "!" + body))
  {
    hide Trim, TrimStartSlashes, ParseTrimmed;
    StripSlashes(body);
    TrimAround(body, before, after);
    TrimAround("!" + body, before, after);
    TrimAround(body + "/", before, after);
    TrimAround("#" + body, before, after);
    TrimAround("\\#" + body, before, after);
    TrimAround("\\!" + body, before, after);
    UnescapedMarks(body);
    EscapedMark(body, '#');
    EscapedMark(body, '!');
    assert "\\" + ['#'] == "\\#" && "\\" + ['!'] == "\\!" && ['#'] == "#" && ['!'] == "!";
  }

  /** A mark alone on its line holds no pattern, unless a backslash precedes it. */
  lemma MarksAlone()
    ensures ParseLine("") == None && ParseLine("#") == None && ParseLine("!") == None && ParseLine("/") == None
    ensures ParseLine("\\#") == Some(Pattern(false, false, false, "#"))
    ensures ParseLine("\\!") == Some(Pattern(false, false, false, "!"))
  {
    hide Trim;
    NothingToTrim();
    assert "!"[1..] == "" && "\\#"[1..] == "#" && "\\!"[1..] == "!";
    assert TrimEndSlashes("#") == "#" && TrimEndSlashes("!") == "!";
  }

  lemma NothingToTrim()
    ensures Trim("") == "" && Trim("#") == "#" && Trim("!") == "!" && Trim("/") == "/"
    ensures Trim("\\#") == "\\#" && Trim("\\!") == "\\!"
  {
    TrimAround("#", "", "");
    TrimAround("!", "", "");
    TrimAround("/", "", "");
    TrimAround("\\#", "", "");
    TrimAround("\\!", "", "");
    assert forall t: string :: "" + t + "" == t;
  }

  lemma UnescapedMarks(body: string)
    requires IsPlain(body)
    ensures ParseTrimmed(body) == Some(Pattern(false, false, '/' in body, TrimStartSlashes(body)))
    ensures ParseTrimmed("!" + body) == Some(Pattern(true, false, '/' in body, TrimStartSlashes(body)))
    ensures ParseTrimmed(body + "/") == Some(Pattern(false, true, '/' in body, TrimStartSlashes(body)))
    ensures ParseTrimmed("#" + body) == None
  {
    hide TrimStartSlashes, IsWhitespace;
    StripSlashes(body);
    assert ("!" + body)[1..] == body;
    assert (body + "/")[..|body|] == body;
    assert TrimEndSlashes(body) == body && TrimEndSlashes(body + "/") == body;
  }

  lemma EscapedMark(body: string, mark: char)
    requires IsPlain(body) && (mark == '#' || mark == '!')
    ensures ParseTrimmed("\\" + [mark] + body) == Some(Pattern(false, false, '/' in body, [mark] + body))
  {
    hide IsWhitespace;
    var line := "\\" + [mark] + body;
    assert line[1..] == [mark] + body;
    assert TrimEndSlashes([mark] + body) == [mark] + body;
  }

  lemma {:induction false} StripSlashes(body: string)
    requires body != "" && body[|body| - 1] != '/'
    ensures var glob := TrimStartSlashes(body);
            glob != "" && glob[0] != '/' && (body[0] == '/' || '/' in glob <==> '/' in body)
  {
    if body[0] == '/' {
      StripSlashes(body[1..]);
    }
  }

  function Lines(text: string): (lines: seq<string>)
    ensures lines != []
  {
    if text == "" then [""]
    else
      var rest := Lines(text[1..]);
      if text[0] == '\n' then [""] + rest else [[text[0]] + rest[0]] + rest[1..]
  }

  // ---- Compiled rules, ordered by precedence ------------------------------------------------

  datatype Rule = Rule(
    negate: bool, onlyDirectories: bool, prefix: string, precedence: nat,
    anchored: bool, parts: seq<Part>)

  /** The rules of one file's lines, in line order. */
  function Compile(lines: seq<string>, prefix: string, precedence: nat): (rules: seq<Rule>)
    ensures forall r :: r in rules ==> r.prefix == prefix && r.precedence == precedence
  {
    if lines == [] then []
    else
      var init := Compile(lines[..|lines| - 1], prefix, precedence);
      match ParseLine(lines[|lines| - 1])
      case None => init
      case Some(p) =>
        init + [Rule(p.negate, p.onlyDirectories, prefix, precedence, p.anchored, Translate(p.glob, true))]
  }

  predicate ByPrecedence(a: Rule, b: Rule) {
    a.precedence <= b.precedence
  }

  predicate Sorted(rules: seq<Rule>) {
    Sorting.Sorted(ByPrecedence, rules)
  }

  /** The rules of one precedence, in order. */
  function OfPrecedence(rules: seq<Rule>, p: nat): (r: seq<Rule>)
    ensures forall x :: x in r <==> x in rules && x.precedence == p
  {
    if rules == [] then []
    else (if rules[0].precedence == p then [rules[0]] else []) + OfPrecedence(rules[1..], p)
  }

  /** Stable sort, as `sort_by_key` orders the rules. */
  function StableSort(rules: seq<Rule>): seq<Rule> {
    Sorting.Sort(ByPrecedence, rules)
  }

  lemma {:induction false} InsertKeepsOrder(rule: Rule, rules: seq<Rule>, p: nat)
    ensures OfPrecedence(Sorting.Insert(ByPrecedence, rule, rules), p) ==
            (if rule.precedence == p then [rule] else []) + OfPrecedence(rules, p)
  {
    hide OfPrecedence;
    var inserted := Sorting.Insert(ByPrecedence, rule, rules);
    PrecedenceUnfold(inserted, p);
    PrecedenceUnfold(rules, p);
    if rules == [] || rule.precedence <= rules[0].precedence {
      assert inserted[1..] == rules;
    } else {
      InsertKeepsOrder(rule, rules[1..], p);
      assert inserted[0] == rules[0] && inserted[1..] == Sorting.Insert(ByPrecedence, rule, rules[1..]);
    }
  }

  /** Sorting orders the rules by precedence and keeps the order within each precedence. */
  lemma {:induction false} StableSortIsStable(rules: seq<Rule>, p: nat)
    ensures Sorted(StableSort(rules))
    ensures OfPrecedence(StableSort(rules), p) == OfPrecedence(rules, p)
  {
    Sorting.SortSorts(ByPrecedence, rules);
    if rules != [] {
      StableSortIsStable(rules[1..], p);
      InsertKeepsOrder(rules[0], StableSort(rules[1..]), p);
      PrecedenceUnfold(rules, p);
    }
  }

  /** A sorted list is determined by its rules of each precedence. */
  lemma {:induction false} SortedIsDetermined(a: seq<Rule>, b: seq<Rule>)
    requires Sorted(a) && Sorted(b)
    requires forall p: nat :: OfPrecedence(a, p) == OfPrecedence(b, p)
    ensures a == b
  {
    hide OfPrecedence, Sorted;
    SameRules(a, b);
    EmptyTogether(a, b);
    if a != [] {
      FirstsAgree(a, b);
      SortedIsDetermined(a[1..], b[1..]);
    }
  }

  lemma SameRules(a: seq<Rule>, b: seq<Rule>)
    requires forall p: nat :: OfPrecedence(a, p) == OfPrecedence(b, p)
    ensures forall r :: r in a <==> r in b
  {
    hide OfPrecedence;
    assert forall r :: r in a <==> r in OfPrecedence(a, r.precedence);
    assert forall r :: r in b <==> r in OfPrecedence(b, r.precedence);
  }

  lemma FirstsAgree(a: seq<Rule>, b: seq<Rule>)
    requires Sorted(a) && Sorted(b) && a != [] && b != []
    requires forall p: nat :: OfPrecedence(a, p) == OfPrecedence(b, p)
    ensures a[0] == b[0] && Sorted(a[1..]) && Sorted(b[1..])
    ensures forall p: nat :: OfPrecedence(a[1..], p) == OfPrecedence(b[1..], p)
  {
    hide OfPrecedence;
    SameRules(a, b);
    assert a[0] in b && b[0] in a;
    assert a[0].precedence == b[0].precedence;
    forall p: nat
      ensures OfPrecedence(a[1..], p) == OfPrecedence(b[1..], p)
    {
      TailOfPrecedence(a, p);
      TailOfPrecedence(b, p);
    }
    TailOfPrecedence(a, a[0].precedence);
    TailOfPrecedence(b, a[0].precedence);
  }

  lemma EmptyTogether<T>(a: seq<T>, b: seq<T>)
    requires forall x :: x in a <==> x in b
    ensures a == [] <==> b == []
  {
    if a != [] { assert a[0] in b; }
    if b != [] { assert b[0] in a; }
  }

  lemma TailOfPrecedence(rules: seq<Rule>, p: nat)
    requires rules != []
    ensures if rules[0].precedence == p
            then OfPrecedence(rules, p) != [] && OfPrecedence(rules, p)[0] == rules[0]
                 && OfPrecedence(rules[1..], p) == OfPrecedence(rules, p)[1..]
            else OfPrecedence(rules[1..], p) == OfPrecedence(rules, p)
  {
  }

  lemma {:induction false} OfPrecedenceConcat(a: seq<Rule>, b: seq<Rule>, p: nat)
    ensures OfPrecedence(a + b, p) == OfPrecedence(a, p) + OfPrecedence(b, p)
  {
    hide OfPrecedence;
    PrecedenceUnfold(a, p);
    PrecedenceUnfold(a + b, p);
    if a == [] {
      assert a + b == b;
    } else {
      var head := if a[0].precedence == p then [a[0]] else [];
      assert (a + b)[1..] == a[1..] + b;
      OfPrecedenceConcat(a[1..], b, p);
      assert head + (OfPrecedence(a[1..], p) + OfPrecedence(b, p))
          == head + OfPrecedence(a[1..], p) + OfPrecedence(b, p);
    }
  }

  lemma PrecedenceUnfold(rules: seq<Rule>, p: nat)
    ensures rules == [] ==> OfPrecedence(rules, p) == []
    ensures rules != [] ==>
              OfPrecedence(rules, p) ==
              (if rules[0].precedence == p then [rules[0]] else []) + OfPrecedence(rules[1..], p)
  {
  }

  lemma {:induction false} OfOnePrecedence(rules: seq<Rule>, p: nat, q: nat)
    requires forall r :: r in rules ==> r.precedence == q
    ensures OfPrecedence(rules, p) == if p == q then rules else []
  {
    if rules != [] {
      OfOnePrecedence(rules[1..], p, q);
    }
  }

  /** One ignore file, the directory it stands in and its rank. */
  datatype RuleFile = RuleFile(text: string, prefix: string, precedence: nat)

  /** The rule list after adding one file to `rules`. */
  function WithFile(rules: seq<Rule>, file: RuleFile): seq<Rule> {
    StableSort(rules + Compile(Lines(file.text), file.prefix, file.precedence))
  }

  function WithFiles(files: seq<RuleFile>): seq<Rule> {
    if files == [] then [] else WithFile(WithFiles(files[..|files| - 1]), files[|files| - 1])
  }

  /** The files of one precedence, in order. */
  function FilesAt(files: seq<RuleFile>, p: nat): (r: seq<RuleFile>)
    ensures forall f :: f in r <==> f in files && f.precedence == p
  {
    if files == [] then []
    else
      var last := |files| - 1;
      FilesAt(files[..last], p) + if files[last].precedence == p then [files[last]] else []
  }

  lemma {:induction false} WithFilesOfPrecedence(files: seq<RuleFile>, p: nat)
    ensures Sorted(WithFiles(files))
    ensures OfPrecedence(WithFiles(files), p) == OfPrecedence(WithFiles(FilesAt(files, p)), p)
  {
    hide WithFile, FilesAt, OfPrecedence, Sorted;
    FilesAtUnfold(files, p);
    if files == [] {
      SortedEmpty();
    } else {
      var last := |files| - 1;
      var file, init := files[last], files[..last];
      var at := FilesAt(init, p);
      WithFilesOfPrecedence(init, p);
      WithFileOfPrecedence(WithFiles(init), file, p);
      WithFileOfPrecedence(WithFiles(at), file, p);
      if file.precedence == p {
        assert (at + [file])[..|at|] == at;
        assert WithFiles(at + [file]) == WithFile(WithFiles(at), file);
      }
    }
  }

  lemma FilesAtUnfold(files: seq<RuleFile>, p: nat)
    ensures files == [] ==> FilesAt(files, p) == []
    ensures files != [] ==>
              var last := |files| - 1;
              FilesAt(files, p) ==
              if files[last].precedence == p then FilesAt(files[..last], p) + [files[last]]
              else FilesAt(files[..last], p)
  {
  }

  lemma SortedEmpty()
    ensures Sorted([])
  {
  }

  lemma WithFileOfPrecedence(rules: seq<Rule>, file: RuleFile, p: nat)
    ensures Sorted(WithFile(rules, file))
    ensures OfPrecedence(WithFile(rules, file), p) ==
            OfPrecedence(rules, p) +
            if file.precedence == p then Compile(Lines(file.text), file.prefix, p) else []
  {
    hide StableSort, OfPrecedence, Lines, Compile;
    var added := Compile(Lines(file.text), file.prefix, file.precedence);
    StableSortIsStable(rules + added, p);
    OfPrecedenceConcat(rules, added, p);
    OfOnePrecedence(added, p, file.precedence);
  }

  /** The compiled list depends only on the order of the files within each precedence. */
  lemma AddingOrderOnlyMattersWithinPrecedence(files: seq<RuleFile>, others: seq<RuleFile>)
    requires forall p: nat :: FilesAt(files, p) == FilesAt(others, p)
    ensures WithFiles(files) == WithFiles(others)
  {
    hide WithFiles, OfPrecedence, Sorted;
    WithFilesOfPrecedence(files, 0);
    WithFilesOfPrecedence(others, 0);
    forall p: nat
      ensures OfPrecedence(WithFiles(files), p) == OfPrecedence(WithFiles(others), p)
    {
      WithFilesOfPrecedence(files, p);
      WithFilesOfPrecedence(others, p);
    }
    SortedIsDetermined(WithFiles(files), WithFiles(others));
  }

  predicate DistinctPrecedences(files: seq<RuleFile>) {
    forall i, j :: 0 <= i < j < |files| ==> files[i].precedence != files[j].precedence
  }

  /** Files of pairwise distinct precedence may be added in any order. */
  lemma DistinctFilesCommute(files: seq<RuleFile>, others: seq<RuleFile>)
    requires DistinctPrecedences(files) && DistinctPrecedences(others)
    requires forall f :: f in files <==> f in others
    ensures WithFiles(files) == WithFiles(others)
  {
    hide WithFiles, DistinctPrecedences, FilesAt;
    forall p: nat
      ensures FilesAt(files, p) == FilesAt(others, p)
    {
      var a, b := FilesAt(files, p), FilesAt(others, p);
      AtMostOneFileAt(files, p);
      AtMostOneFileAt(others, p);
      assert forall f :: f in a <==> f in b;
      assert (a != [] ==> a[0] in b) && (b != [] ==> b[0] in a);
    }
    AddingOrderOnlyMattersWithinPrecedence(files, others);
  }

  lemma {:induction false} AtMostOneFileAt(files: seq<RuleFile>, p: nat)
    requires DistinctPrecedences(files)
    ensures |FilesAt(files, p)| <= 1
  {
    FilesAtUnfold(files, p);
    if files != [] {
      var last := |files| - 1;
      AtMostOneFileAt(files[..last], p);
      var before := FilesAt(files[..last], p);
      if files[last].precedence == p {
        assert forall f :: f !in before;
        EmptyTogether(before, []);
      }
    }
  }

  // ---- A file line by line --------------------------------------------------------------------

  lemma {:induction false} LinesOfBoth(text: string, more: string)
    ensures Lines(text + "\n" + more) == Lines(text) + Lines(more)
  {
    var whole := text + "\n" + more;
    if text == "" {
      assert whole[1..] == more;
    } else {
      assert whole[1..] == text[1..] + "\n" + more && whole[0] == text[0];
      LinesOfBoth(text[1..], more);
    }
  }

  lemma {:induction false} CompileBoth(lines: seq<string>, others: seq<string>, prefix: string, precedence: nat)
    ensures Compile(lines + others, prefix, precedence) ==
            Compile(lines, prefix, precedence) + Compile(others, prefix, precedence)
  {
    hide ParseLine, Translate;
    if others == [] {
      assert lines + others == lines;
    } else {
      var last := |others| - 1;
      var whole := lines + others;
      assert whole[..|whole| - 1] == lines + others[..last] && whole[|whole| - 1] == others[last];
      CompileBoth(lines, others[..last], prefix, precedence);
    }
  }

  /** A file is added line by line: a text and more lines after it add what the text alone and then
      the lines alone add. */
  lemma AddingLineByLine(rules: seq<Rule>, text: string, more: string, prefix: string, precedence: nat)
    ensures WithFile(rules, RuleFile(text + "\n" + more, prefix, precedence)) ==
            WithFile(WithFile(rules, RuleFile(text, prefix, precedence)), RuleFile(more, prefix, precedence))
  {
    hide OfPrecedence, Sorted, Lines, Compile, StableSort, WithFile;
    var whole := WithFile(rules, RuleFile(text + "\n" + more, prefix, precedence));
    var first := WithFile(rules, RuleFile(text, prefix, precedence));
    var both := WithFile(first, RuleFile(more, prefix, precedence));
    LinesOfBoth(text, more);
    CompileBoth(Lines(text), Lines(more), prefix, precedence);
    WithFileOfPrecedence(rules, RuleFile(text + "\n" + more, prefix, precedence), 0);
    WithFileOfPrecedence(first, RuleFile(more, prefix, precedence), 0);
    forall p: nat
      ensures OfPrecedence(whole, p) == OfPrecedence(both, p)
    {
      WithFileOfPrecedence(rules, RuleFile(text + "\n" + more, prefix, precedence), p);
      WithFileOfPrecedence(rules, RuleFile(text, prefix, precedence), p);
      WithFileOfPrecedence(first, RuleFile(more, prefix, precedence), p);
      var a, b, c := OfPrecedence(rules, p), Compile(Lines(text), prefix, p), Compile(Lines(more), prefix, p);
      assert a + b + c == a + (b + c);
    }
    SortedIsDetermined(whole, both);
  }

  /** A line adds one rule after those of its precedence, made as the line says; a line without a
      pattern adds none. */
  lemma AddingOneLine(rules: seq<Rule>, line: string, prefix: string, precedence: nat, p: nat)
    requires '\n' !in line
    ensures var after := WithFile(rules, RuleFile(line, prefix, precedence));
      && Sorted(after)
      && match ParseLine(line)
         case None => OfPrecedence(after, p) == OfPrecedence(rules, p)
         case Some(pattern) =>
           var rule := Rule(pattern.negate, pattern.onlyDirectories, prefix, precedence, pattern.anchored,
                            Translate(pattern.glob, true));
           OfPrecedence(after, p) == OfPrecedence(rules, p) + if p == precedence then [rule] else []
  {
    hide OfPrecedence, Sorted, StableSort, WithFile, Lines, ParseLine, Translate;
    WithFileOfPrecedence(rules, RuleFile(line, prefix, precedence), p);
    LinesOfOne(line);
    assert [line][..0] == [];
    assert OfPrecedence(rules, p) + [] == OfPrecedence(rules, p);
  }

  // ---- Deciding a path -----------------------------------------------------------------------

  const ALWAYS_IGNORED_DIRS: seq<string> := [
    ".git", ".factory", ".hg", ".svn", ".idea", ".vscode", ".next", ".turbo", ".cache",
    "node_modules", "target", "dist", "build", "vendor", "__pycache__", ".venv", "venv",
    "coverage", ".pytest_cache", ".ruff_cache", ".tmp_src"]

  const ALWAYS_IGNORED_NAMES: seq<string> := [".DS_Store", "Thumbs.db"]

  const ALWAYS_IGNORED_SUFFIXES: seq<string> := [
    ".png", ".jpg", ".jpeg", ".gif", ".webp", ".ico", ".svgz", ".woff", ".woff2", ".ttf", ".otf",
    ".eot", ".pdf", ".zip", ".tar", ".gz", ".tgz", ".wasm", ".exe", ".dll", ".so", ".dylib",
    ".class", ".lock"]

  predicate IsBuiltinIgnoredDir(name: string) {
    name in ALWAYS_IGNORED_DIRS
  }

  predicate IsBuiltinIgnoredFile(name: string) {
    || name in ALWAYS_IGNORED_NAMES
    || exists k :: 0 <= k < |ALWAYS_IGNORED_SUFFIXES| &&
         |ALWAYS_IGNORED_SUFFIXES[k]| <= |name| &&
         name[|name| - |ALWAYS_IGNORED_SUFFIXES[k]|..] == ALWAYS_IGNORED_SUFFIXES[k]
  }

  /** The part of `text` a rule looks at: what follows the rule's directory. */
  function Candidate(rule: Rule, text: string): Option<string> {
    if rule.prefix == "" then Some(text)
    else if rule.prefix <= text then
      var rest := text[|rule.prefix|..];
      Some(if rest != "" && rest[0] == '/' then rest[1..] else rest)
    else None
  }

  predicate Applies(rule: Rule, text: string, isDirectory: bool) {
    && (rule.onlyDirectories ==> isDirectory)
    && Candidate(rule, text).Some?
    && Candidate(rule, text).value != ""
    && RegexMatches(rule.anchored, rule.parts, Candidate(rule, text).value)
  }

  /** The last rule that applies to the path exists and is not a negation. */
  ghost predicate Decides(rules: seq<Rule>, text: string, isDirectory: bool) {
    exists i :: 0 <= i < |rules| && Applies(rules[i], text, isDirectory) && !rules[i].negate
      && forall j :: i < j < |rules| ==> !Applies(rules[j], text, isDirectory)
  }

  function NonEmpty(comps: seq<string>): (r: seq<string>)
    ensures "" !in r
  {
    if comps == [] then []
    else
      var last := comps[|comps| - 1];
      NonEmpty(comps[..|comps| - 1]) + if last == "" then [] else [last]
  }

  /** The forward-slash text of a path. */
  function PathText(path: seq<string>): string {
    ForwardSlashes(Join(path))
  }

  function ForwardSlashes(s: string): (r: string)
    ensures |r| == |s|
  {
    if s == "" then "" else [if s[0] == '\\' then '/' else s[0]] + ForwardSlashes(s[1..])
  }

  ghost predicate Builtin(path: seq<string>, isDirectory: bool) {
    || (exists k :: 0 <= k < |path| && IsBuiltinIgnoredDir(path[k]))
    || (!isDirectory && path != [] && IsBuiltinIgnoredFile(path[|path| - 1]))
  }

  /** The builtin names decide whatever the rules say; without rules they alone decide. */
  lemma BuiltinNamesDecide(rules: seq<Rule>, path: seq<string>, isDirectory: bool)
    ensures (exists k :: 0 <= k < |path| && path[k] in ALWAYS_IGNORED_DIRS) ==> Ignored(rules, path, isDirectory)
    ensures path != [] && !isDirectory && IsBuiltinIgnoredFile(path[|path| - 1]) ==> Ignored(rules, path, isDirectory)
    ensures Ignored([], path, isDirectory) ==>
      || (exists k :: 0 <= k < |path| && path[k] in ALWAYS_IGNORED_DIRS)
      || (path != [] && !isDirectory && IsBuiltinIgnoredFile(path[|path| - 1]))
  {
    hide PathText, NonEmpty, Split, IsBuiltinIgnoredFile;
  }

  /** A builtin file name is one of two, or any text before one of the suffixes. */
  lemma BuiltinFileNames(name: string)
    ensures IsBuiltinIgnoredFile(name) <==>
            name == ".DS_Store" || name == "Thumbs.db"
            || exists stem: string, k :: 0 <= k < |ALWAYS_IGNORED_SUFFIXES| && EndsWith(name, stem, k)
  {
    forall k | 0 <= k < |ALWAYS_IGNORED_SUFFIXES| && |ALWAYS_IGNORED_SUFFIXES[k]| <= |name|
               && name[|name| - |ALWAYS_IGNORED_SUFFIXES[k]|..] == ALWAYS_IGNORED_SUFFIXES[k]
      ensures EndsWith(name, name[..|name| - |ALWAYS_IGNORED_SUFFIXES[k]|], k)
    {}
    forall stem: string, k | 0 <= k < |ALWAYS_IGNORED_SUFFIXES| && EndsWith(name, stem, k)
      ensures name[|name| - |ALWAYS_IGNORED_SUFFIXES[k]|..] == ALWAYS_IGNORED_SUFFIXES[k]
    {}
  }

  predicate EndsWith(name: string, stem: string, k: nat)
    requires k < |ALWAYS_IGNORED_SUFFIXES|
  {
    name == stem + ALWAYS_IGNORED_SUFFIXES[k]
  }

  /** A rule of a nested file never speaks about the directory of the file itself. */
  lemma NestedRuleSparesItsDirectory(rule: Rule, isDirectory: bool)
    requires rule.prefix != ""
    ensures !Applies(rule, rule.prefix, isDirectory)
  {}

  ghost predicate Ignored(rules: seq<Rule>, path: seq<string>, isDirectory: bool) {
    var pieces := NonEmpty(Split(PathText(path)));
    || Builtin(path, isDirectory)
    || (exists k :: 0 < k < |pieces| && AncestorDecides(rules, pieces, k))
    || Decides(rules, PathText(path), isDirectory)
  }

  /** The rules ignore the directory that the first `k` components name. */
  ghost predicate AncestorDecides(rules: seq<Rule>, pieces: seq<string>, k: nat)
    requires k <= |pieces|
  {
    Decides(rules, Join(pieces[..k]), true)
  }

  /** The text of the path after each component, the path itself last. */
  ghost function Ancestors(pieces: seq<string>): (r: seq<string>)
    ensures |r| == |pieces|
  {
    if pieces == [] then [] else Ancestors(pieces[..|pieces| - 1]) + [Join(pieces)]
  }

  lemma {:induction false} AncestorAt(pieces: seq<string>, k: nat)
    requires k < |pieces|
    ensures Ancestors(pieces)[k] == Join(pieces[..k + 1])
  {
    var last := |pieces| - 1;
    if k < last {
      AncestorAt(pieces[..last], k);
      assert pieces[..last][..k + 1] == pieces[..k + 1];
    } else {
      assert pieces[..k + 1] == pieces;
    }
  }

  class IgnoreRules {
    var globs: seq<Rule>

    constructor ()
      ensures globs == []
    {
      globs := [];
    }

    method AddScoped(text: string, prefix: string, precedence: nat)
      modifies this
      ensures globs == WithFile(old(globs), RuleFile(text, prefix, precedence))
    {
      hide Lines, ParseLine, StableSort, Translate;
      var lines := Lines(text);
      for n := 0 to |lines|
        invariant globs == old(globs) + Compile(lines[..n], prefix, precedence)
      {
        assert lines[..n + 1][..n] == lines[..n];
        var parsed := ParseLine(lines[n]);
        if parsed.Some? {
          var parts := CompilePattern(parsed.value.glob);
          globs := globs + [Rule(parsed.value.negate, parsed.value.onlyDirectories, prefix, precedence,
                                 parsed.value.anchored, parts)];
        }
      }
      assert lines[..|lines|] == lines;
      globs := StableSort(globs);
    }

    method MatchWithRules(text: string, isDirectory: bool) returns (ignored: bool)
      ensures ignored <==> Decides(globs, text, isDirectory)
    {
      hide Decides, RegexMatches;
      ignored := false;
      NothingDecides(text, isDirectory);
      for n := 0 to |globs|
        invariant ignored <==> Decides(globs[..n], text, isDirectory)
      {
        LastRuleDecides(globs[..n + 1], text, isDirectory);
        assert globs[..n + 1][..n] == globs[..n];
        var rule := globs[n];
        if rule.onlyDirectories && !isDirectory {
          continue;
        }
        var candidate := Candidate(rule, text);
        if candidate.None? || candidate.value == "" {
          continue;
        }
        if RegexMatches(rule.anchored, rule.parts, candidate.value) {
          ignored := !rule.negate;
        }
      }
      assert globs[..|globs|] == globs;
    }

    method IsIgnored(path: seq<string>, isDirectory: bool) returns (ignored: bool)
      ensures ignored <==> Ignored(globs, path, isDirectory)
    {
      hide Decides, Join, NonEmpty, Ancestors, PathText, Split, IsBuiltinIgnoredDir, IsBuiltinIgnoredFile;
      NonEmptyOfNothing();
      if exists k :: 0 <= k < |path| && IsBuiltinIgnoredDir(path[k]) {
        return true;
      }
      if !isDirectory && path != [] && IsBuiltinIgnoredFile(path[|path| - 1]) {
        return true;
      }
      var text := PathText(path);
      var comps := Split(text);
      ghost var pieces := NonEmpty(comps);
      var ancestors: seq<string> := [];
      var current := "";
      for n := 0 to |comps|
        invariant ancestors == Ancestors(NonEmpty(comps[..n]))
        invariant current == Join(NonEmpty(comps[..n]))
      {
        NonEmptyStep(comps, n);
        if comps[n] == "" {
          continue;
        }
        JoinAppend(NonEmpty(comps[..n]), comps[n]);
        if current != "" {
          current := current + "/";
        }
        assert "" + comps[n] == comps[n];
        current := current + comps[n];
        ancestors := ancestors + [current];
      }
      assert comps[..|comps|] == comps;
      if ancestors != [] {
        ancestors := ancestors[..|ancestors| - 1];
      }
      for n := 0 to |ancestors|
        invariant forall k :: 0 < k <= n ==> !AncestorDecides(globs, pieces, k)
      {
        AncestorAt(pieces, n);
        var hit := MatchWithRules(ancestors[n], true);
        if hit {
          assert AncestorDecides(globs, pieces, n + 1);
          return true;
        }
      }
      ignored := MatchWithRules(text, isDirectory);
    }
  }

  lemma NonEmptyOfNothing()
    ensures NonEmpty([]) == [] && Ancestors([]) == [] && Join([]) == ""
  {
  }

  lemma NonEmptyStep(comps: seq<string>, n: nat)
    requires n < |comps|
    ensures comps[n] == "" ==> NonEmpty(comps[..n + 1]) == NonEmpty(comps[..n])
    ensures comps[n] != "" ==>
              && NonEmpty(comps[..n + 1]) == NonEmpty(comps[..n]) + [comps[n]]
              && Ancestors(NonEmpty(comps[..n + 1])) ==
                 Ancestors(NonEmpty(comps[..n])) + [Join(NonEmpty(comps[..n]) + [comps[n]])]
  {
    hide Join;
    assert comps[..n + 1][..n] == comps[..n];
    var before := NonEmpty(comps[..n]);
    assert (before + [comps[n]])[..|before|] == before;
  }

  lemma NothingDecides(text: string, isDirectory: bool)
    ensures !Decides([], text, isDirectory)
  {
  }

  lemma LastRuleDecides(rules: seq<Rule>, text: string, isDirectory: bool)
    requires rules != []
    ensures var last := |rules| - 1;
            Decides(rules, text, isDirectory) <==>
            if Applies(rules[last], text, isDirectory) then !rules[last].negate
            else Decides(rules[..last], text, isDirectory)
  {
    hide Applies;
    var last := |rules| - 1;
    var init := rules[..last];
    assert forall k :: 0 <= k < last ==> init[k] == rules[k];
    if !Applies(rules[last], text, isDirectory) {
      if Decides(init, text, isDirectory) {
        var i :| 0 <= i < last && Applies(init[i], text, isDirectory) && !init[i].negate
          && forall j :: i < j < last ==> !Applies(init[j], text, isDirectory);
        assert Applies(rules[i], text, isDirectory);
      }
      if Decides(rules, text, isDirectory) {
        var i :| 0 <= i < |rules| && Applies(rules[i], text, isDirectory) && !rules[i].negate
          && forall j :: i < j < |rules| ==> !Applies(rules[j], text, isDirectory);
        assert Applies(init[i], text, isDirectory);
      }
    }
  }

  lemma JoinAppend(a: seq<string>, name: string)
    requires "" !in a
    ensures Join(a) == "" <==> a == []
    ensures Join(a + [name]) == if a == [] then name else Join(a) + "/" + name
  {
    if a != [] {
      JoinUnfold(a);
      assert a[0] in a;
      JoinConcat(a, [name]);
    }
  }

  // ---- What the decisions guarantee -----------------------------------------------------------

  /** Names as a forward-slash relative path holds them. */
  predicate Clean(path: seq<string>) {
    forall k :: 0 <= k < |path| ==> path[k] != "" && '/' !in path[k] && '\\' !in path[k]
  }

  lemma {:induction false} ForwardSlashesUnchanged(s: string)
    requires '\\' !in s
    ensures ForwardSlashes(s) == s
  {
    if s != "" {
      ForwardSlashesUnchanged(s[1..]);
    }
  }

  lemma {:induction false} JoinHasNoBackslash(path: seq<string>)
    requires Clean(path)
    ensures '\\' !in Join(path)
  {
    if |path| > 1 {
      JoinHasNoBackslash(path[1..]);
    }
  }

  lemma {:induction false} NonEmptyUnchanged(path: seq<string>)
    requires "" !in path
    ensures NonEmpty(path) == path
  {
    if path != [] {
      var last := |path| - 1;
      assert path[last] in path;
      NonEmptyUnchanged(path[..last]);
      assert path == path[..last] + [path[last]];
    }
  }

  lemma PiecesOfCleanPath(path: seq<string>)
    requires path != [] && Clean(path)
    ensures PathText(path) == Join(path) && NonEmpty(Split(PathText(path))) == path
  {
    JoinHasNoBackslash(path);
    ForwardSlashesUnchanged(Join(path));
    SplitOfJoin(path);
    NonEmptyUnchanged(path);
  }

  /** Names as the components of a path hold them; a backslash may stand in one. */
  predicate Names(path: seq<string>) {
    forall k :: 0 <= k < |path| ==> path[k] != "" && '/' !in path[k]
  }

  /** The text of the directory has no empty component, and something is named below it. */
  predicate Reached(dir: seq<string>, below: seq<string>) {
    "" !in Split(PathText(dir)) && NonEmpty(Split(PathText(below))) != []
  }

  /** Ignoring a directory hides what is below it, whatever the ignore files say, negated or not,
      exactly if a builtin name does, or no backslash leaves the text of the directory with an empty
      component. */
  lemma IgnoredDirectoryHidesEverythingBelow(dir: seq<string>, below: seq<string>, isDirectory: bool)
    requires dir != [] && below != [] && Names(dir) && Names(below)
    ensures (forall files: seq<RuleFile> ::
               Ignored(WithFiles(files), dir, true) ==> Ignored(WithFiles(files), dir + below, isDirectory))
            <==> Builtin(dir + below, isDirectory) || Reached(dir, below)
    ensures Reached(dir, below) ==>
      forall rules :: Ignored(rules, dir, true) ==> Ignored(rules, dir + below, isDirectory)
  {
    hide Ignored, Builtin, Reached, WithFiles;
    if Reached(dir, below) {
      forall rules | Ignored(rules, dir, true)
        ensures Ignored(rules, dir + below, isDirectory)
      {
        HiddenWhenReached(rules, dir, below, isDirectory);
      }
    } else if Builtin(dir + below, isDirectory) {
      BuiltinIsIgnored(dir + below, isDirectory);
    } else {
      NotHidden(dir, below, isDirectory);
    }
  }

  lemma BuiltinIsIgnored(path: seq<string>, isDirectory: bool)
    requires Builtin(path, isDirectory)
    ensures forall rules :: Ignored(rules, path, isDirectory)
  {}

  /** No rule, negated or not, brings back anything below an ignored directory whose text has no
      empty component. */
  lemma HiddenWhenReached(rules: seq<Rule>, dir: seq<string>, below: seq<string>, isDirectory: bool)
    requires dir != [] && below != [] && Reached(dir, below)
    requires Ignored(rules, dir, true)
    ensures Ignored(rules, dir + below, isDirectory)
  {
    hide Decides, Split, NonEmpty, PathText, IsBuiltinIgnoredDir, IsBuiltinIgnoredFile, Join;
    var path := dir + below;
    PiecesBelow(dir, below);
    var above, pieces := Split(PathText(dir)), NonEmpty(Split(PathText(path)));
    NonEmptyUnchanged(above);
    SplitJoin(PathText(dir));
    if k :| 0 <= k < |dir| && IsBuiltinIgnoredDir(dir[k]) {
      assert IsBuiltinIgnoredDir(path[k]);
    } else if k :| 0 < k < |above| && AncestorDecides(rules, above, k) {
      assert pieces[..k] == above[..k];
      assert AncestorDecides(rules, pieces, k);
    } else {
      assert pieces[..|above|] == above;
      assert AncestorDecides(rules, pieces, |above|);
    }
  }

  /** The pieces of a path are those of its two parts. */
  lemma PiecesBelow(dir: seq<string>, below: seq<string>)
    requires dir != [] && below != []
    ensures PathText(dir + below) == PathText(dir) + "/" + PathText(below)
    ensures NonEmpty(Split(PathText(dir + below))) ==
            NonEmpty(Split(PathText(dir))) + NonEmpty(Split(PathText(below)))
  {
    hide Join, Split, NonEmpty, ForwardSlashes;
    JoinConcat(dir, below);
    SlashesOfBoth(Join(dir), "/" + Join(below));
    SlashesOfBoth("/", Join(below));
    SlashStays();
    assert Join(dir) + "/" + Join(below) == Join(dir) + ("/" + Join(below));
    SplitAround(PathText(dir), PathText(below));
    NonEmptyOfBoth(Split(PathText(dir)), Split(PathText(below)));
  }

  lemma SlashStays()
    ensures ForwardSlashes("/") == "/"
  {}

  lemma {:induction false} SlashesOfBoth(a: string, b: string)
    ensures ForwardSlashes(a + b) == ForwardSlashes(a) + ForwardSlashes(b)
  {
    if a == "" {
      assert a + b == b;
    } else {
      assert (a + b)[1..] == a[1..] + b;
      SlashesOfBoth(a[1..], b);
    }
  }

  lemma {:induction false} SplitAround(a: string, b: string)
    ensures Split(a + "/" + b) == Split(a) + Split(b)
  {
    var text := a + "/" + b;
    if a == "" {
      assert text[1..] == b;
    } else {
      assert text[1..] == a[1..] + "/" + b && text[0] == a[0];
      SplitAround(a[1..], b);
    }
  }

  lemma {:induction false} NonEmptyOfBoth(a: seq<string>, b: seq<string>)
    ensures NonEmpty(a + b) == NonEmpty(a) + NonEmpty(b)
  {
    if b == [] {
      assert a + b == a;
    } else {
      var last := |b| - 1;
      assert (a + b)[..|a + b| - 1] == a + b[..last];
      NonEmptyOfBoth(a, b[..last]);
    }
  }

  // ---- A file for one shape of text -----------------------------------------------------------

  /** The texts have slashes at the same places and the same length. */
  predicate SameShape(s: string, c: string) {
    |s| == |c| && forall i :: 0 <= i < |s| ==> (s[i] == '/' <==> c[i] == '/')
  }

  /** `c` begins in the shape of `s` and goes on within a component. */
  predicate BeginsAs(s: string, c: string) {
    |s| <= |c| && SameShape(s, c[..|s|]) && '/' !in c[|s|..]
  }

  function Mask(s: string): (m: string)
    ensures |m| == |s| && forall i :: 0 <= i < |m| ==> m[i] == if s[i] == '/' then '/' else '?'
  {
    if s == "" then "" else [if s[0] == '/' then '/' else '?'] + Mask(s[1..])
  }

  /** A glob for the texts in the shape of `s`, its first character never a plain slash. */
  function ShapeGlob(s: string): string {
    if s != "" && s[0] == '/' then "\\" + Mask(s) else Mask(s)
  }

  /** The lines that ignore exactly the texts in the shape of `s`. */
  function ShapeLines(s: string): seq<string> {
    ["/" + ShapeGlob(s) + "*", "!/" + ShapeGlob(s) + "?*"]
  }

  function ShapeFile(s: string, dir: string): RuleFile {
    RuleFile(ShapeLines(s)[0] + "\n" + ShapeLines(s)[1], dir, 1)
  }

  lemma {:induction false} MaskMatches(s: string, more: bool, atStart: bool, c: string)
    ensures Matches(Translate(Mask(s) + (if more then "?*" else "*"), atStart), c) <==>
            BeginsAs(s, c) && (more ==> |s| < |c|)
    decreases |s|
  {
    hide Matches, Translate, FirstPart;
    var tail := if more then "?*" else "*";
    var p := Mask(s) + tail;
    if s == "" {
      assert p == tail;
      TailMatches(more, atStart, c);
    } else {
      assert p[0] == Mask(s)[0] && p[1..] == Mask(s[1..]) + tail;
      MaskPart(p, atStart);
      TranslateTail(p, atStart, c);
      MatchesUnfold(Translate(p, atStart), c);
      if c != "" {
        MaskMatches(s[1..], more, p[0] == '/', c[1..]);
        BeginsAsStep(s, c);
      }
    }
  }

  lemma MaskPart(p: string, atStart: bool)
    requires p != "" && (p[0] == '/' || p[0] == '?')
    ensures FirstPart(p, atStart) == (if p[0] == '/' then Literal('/') else OneInComponent, 1)
  {}

  lemma BeginsAsStep(s: string, c: string)
    requires s != "" && c != ""
    ensures BeginsAs(s, c) <==> (s[0] == '/' <==> c[0] == '/') && BeginsAs(s[1..], c[1..])
  {
    if |s| <= |c| {
      assert c[1..][|s| - 1..] == c[|s|..];
      var a, b := c[..|s|], c[1..][..|s| - 1];
      assert forall i :: 0 <= i < |b| ==> b[i] == a[i + 1] && s[1..][i] == s[i + 1];
      assert forall i :: 0 < i < |a| ==> a[i] == b[i - 1] && s[i] == s[1..][i - 1];
    }
  }

  lemma TailMatches(more: bool, atStart: bool, c: string)
    ensures Matches(Translate(if more then "?*" else "*", atStart), c) <==>
            '/' !in c && (more ==> c != "")
  {
    if more {
      TranslateTail("?*", atStart, c);
      assert "?*"[1..] == "*";
      MatchesUnfold(Translate("?*", atStart), c);
      if c != "" {
        StarMatches(false, c[1..]);
        assert c == [c[0]] + c[1..];
      }
    } else {
      StarMatches(atStart, c);
    }
  }

  lemma StarMatches(atStart: bool, c: string)
    ensures Translate("*", atStart) == [AnyInComponent]
    ensures Matches([AnyInComponent], c) <==> '/' !in c
  {
    MatchesUnfold([AnyInComponent], c);
    assert c[..|c|] == c && c[|c|..] == "";
    forall i | 0 <= i <= |c| && Matches([], c[i..])
      ensures i == |c|
    {}
  }
  lemma ShapeGlobMatches(s: string, more: bool, c: string)
    requires s != ""
    ensures Matches(Translate(ShapeGlob(s) + (if more then "?*" else "*"), true), c) <==>
            BeginsAs(s, c) && (more ==> |s| < |c|)
  {
    hide Matches, Translate, FirstPart, Mask, BeginsAs;
    var tail := if more then "?*" else "*";
    var p := ShapeGlob(s) + tail;
    if s[0] == '/' {
      MaskHead(s);
      assert p[0] == '\\' && p[1] == '/' && p[2..] == Mask(s[1..]) + tail;
      EscapedSlash(p);
      TranslateTail(p, true, c);
      MatchesUnfold(Translate(p, true), c);
      if c != "" {
        MaskMatches(s[1..], more, true, c[1..]);
        BeginsAsStep(s, c);
      } else {
        NothingBeginsAs(s);
      }
    } else {
      MaskMatches(s, more, true, c);
    }
  }

  lemma MaskHead(s: string)
    requires s != "" && s[0] == '/'
    ensures Mask(s) == "/" + Mask(s[1..])
  {}

  lemma EscapedSlash(p: string)
    requires |p| > 1 && p[0] == '\\' && p[1] == '/'
    ensures FirstPart(p, true) == (Literal('/'), 2)
  {}

  lemma NothingBeginsAs(s: string)
    requires s != ""
    ensures !BeginsAs(s, "")
  {}

  /** What the file compiles to: a rule for the shape and what follows, and its negation for texts
      that are longer. */
  function ShapeRules(s: string, dir: string): seq<Rule> {
    [Rule(false, false, dir, 1, true, Translate(ShapeGlob(s) + "*", true)),
     Rule(true, false, dir, 1, true, Translate(ShapeGlob(s) + "?*", true))]
  }

  lemma ShapeFileCompiles(s: string, dir: string)
    requires s != ""
    ensures WithFiles([ShapeFile(s, dir)]) == ShapeRules(s, dir)
  {
    hide Translate, Lines, ShapeGlob, ParseLine, Compile;
    var lines := ShapeLines(s);
    ShapeLinesParse(s);
    LinesAround(lines[0], lines[1]);
    LinesOfOne(lines[1]);
    assert Lines(ShapeFile(s, dir).text) == lines;
    CompileTwo(lines, dir, 1);
    OneFile(ShapeFile(s, dir));
  }

  lemma CompileTwo(lines: seq<string>, prefix: string, precedence: nat)
    requires |lines| == 2 && ParseLine(lines[0]).Some? && ParseLine(lines[1]).Some?
    ensures var (p, q) := (ParseLine(lines[0]).value, ParseLine(lines[1]).value);
      Compile(lines, prefix, precedence) ==
      [Rule(p.negate, p.onlyDirectories, prefix, precedence, p.anchored, Translate(p.glob, true)),
       Rule(q.negate, q.onlyDirectories, prefix, precedence, q.anchored, Translate(q.glob, true))]
  {
    hide ParseLine, Translate;
    var one := lines[..1];
    assert one[..0] == [] && one[0] == lines[0];
    var p := ParseLine(lines[0]).value;
    assert Compile(one, prefix, precedence) ==
           [Rule(p.negate, p.onlyDirectories, prefix, precedence, p.anchored, Translate(p.glob, true))];
  }

  /** The rules of a single file are those of its lines, in line order. */
  lemma OneFile(file: RuleFile)
    ensures WithFiles([file]) == Compile(Lines(file.text), file.prefix, file.precedence)
  {
    hide Lines, Compile, StableSort;
    var rules := Compile(Lines(file.text), file.prefix, file.precedence);
    assert [file][..0] == [] && [] + rules == rules;
    assert WithFiles([file]) == StableSort(rules);
    AlreadySorted(rules, file.precedence);
  }

  lemma AlreadySorted(rules: seq<Rule>, precedence: nat)
    requires forall r :: r in rules ==> r.precedence == precedence
    ensures StableSort(rules) == rules
  {
    assert Sorted(rules) by { assert forall i :: 0 <= i < |rules| ==> rules[i] in rules; }
    Sorting.SortOfSorted(ByPrecedence, rules);
  }

  lemma ShapeLinesParse(s: string)
    requires s != ""
    ensures ParseLine(ShapeLines(s)[0]) == Some(Pattern(false, false, true, ShapeGlob(s) + "*"))
    ensures ParseLine(ShapeLines(s)[1]) == Some(Pattern(true, false, true, ShapeGlob(s) + "?*"))
    ensures '\n' !in ShapeLines(s)[0] && '\n' !in ShapeLines(s)[1]
  {
    hide ParseLine, Mask, ShapeGlob;
    var g := ShapeGlob(s);
    ShapeGlobStarts(s);
    RootedLine(g + "*");
    RootedLine(g + "?*");
    assert "/" + (g + "*") == "/" + g + "*" && "!" + ("/" + (g + "?*")) == "!/" + g + "?*";
    assert '\n' !in "/" && '\n' !in "!/" && '\n' !in "*" && '\n' !in "?*";
  }

  lemma ShapeGlobStarts(s: string)
    requires s != ""
    ensures ShapeGlob(s) != "" && ShapeGlob(s)[0] != '/' && '\n' !in ShapeGlob(s)
  {
    hide Mask;
    assert '\n' !in Mask(s);
  }

  lemma RootedLine(glob: string)
    requires glob != "" && glob[0] != '/' && glob[|glob| - 1] == '*'
    ensures ParseLine("/" + glob) == Some(Pattern(false, false, true, glob))
    ensures ParseLine("!" + ("/" + glob)) == Some(Pattern(true, false, true, glob))
  {
    hide ParseLine;
    var body := "/" + glob;
    StripOneSlash(glob);
    hide TrimStartSlashes;
    assert IsPlain(body) && '/' in body;
    ParseLineMarks(body, "", "");
    assert "" + body + "" == body && "" + ("!" + body) + "" == "!" + body;
  }

  lemma StripOneSlash(glob: string)
    requires glob != "" && glob[0] != '/'
    ensures TrimStartSlashes("/" + glob) == glob
  {
    assert ("/" + glob)[1..] == glob;
  }

  lemma {:induction false} LinesOfOne(line: string)
    requires '\n' !in line
    ensures Lines(line) == [line]
  {
    if line != "" {
      assert line == [line[0]] + line[1..] && line[0] in line;
      LinesOfOne(line[1..]);
    }
  }

  lemma {:induction false} LinesAround(line: string, rest: string)
    requires '\n' !in line
    ensures Lines(line + "\n" + rest) == [line] + Lines(rest)
  {
    var text := line + "\n" + rest;
    if line == "" {
      assert text[1..] == rest;
    } else {
      assert text[1..] == line[1..] + "\n" + rest && text[0] == line[0] && line[0] in line;
      assert line == [line[0]] + line[1..];
      LinesAround(line[1..], rest);
    }
  }

  /** The file ignores exactly the candidates in its shape. */
  lemma ShapeDecides(s: string, dir: string, text: string, isDirectory: bool)
    requires s != ""
    ensures var candidate := Candidate(ShapeRules(s, dir)[0], text);
      Decides(ShapeRules(s, dir), text, isDirectory) <==> candidate.Some? && SameShape(s, candidate.value)
  {
    hide Decides, Matches, Translate, ShapeGlob;
    var rules := ShapeRules(s, dir);
    LastRuleDecides(rules, text, isDirectory);
    assert rules[..1][0] == rules[0] && rules[..1][..0] == [];
    LastRuleDecides(rules[..1], text, isDirectory);
    NothingDecides(text, isDirectory);
    var candidate := Candidate(rules[0], text);
    assert Candidate(rules[1], text) == candidate;
    if candidate.Some? {
      var c := candidate.value;
      ShapeGlobMatches(s, false, c);
      ShapeGlobMatches(s, true, c);
      assert |c| == |s| ==> c[..|s|] == c;
    }
  }

  lemma {:induction false} ShapesSplitAlike(s: string, c: string)
    requires SameShape(s, c)
    ensures |Split(s)| == |Split(c)|
    ensures "" in Split(s) <==> "" in Split(c)
    ensures Split(s)[0] == "" <==> Split(c)[0] == ""
    ensures "" in Split(s)[1..] <==> "" in Split(c)[1..]
  {
    if s != "" {
      ShapesSplitAlike(s[1..], c[1..]);
      SplitHead(s);
      SplitHead(c);
    }
  }

  lemma SplitHead(s: string)
    requires s != ""
    ensures s[0] == '/' ==> Split(s) == [""] + Split(s[1..]) && Split(s)[1..] == Split(s[1..])
    ensures s[0] != '/' ==> |Split(s)| == |Split(s[1..])| && Split(s)[0] != "" && Split(s)[1..] == Split(s[1..])[1..]
    ensures "" in Split(s) <==> Split(s)[0] == "" || "" in Split(s)[1..]
    ensures "" in Split(s[1..]) <==> Split(s[1..])[0] == "" || "" in Split(s[1..])[1..]
  {
    assert Split(s) == [Split(s)[0]] + Split(s)[1..];
    assert Split(s[1..]) == [Split(s[1..])[0]] + Split(s[1..])[1..];
  }

  /** Where the directory is not reached, an ignore file ignores it and nothing below it. */
  lemma NotHidden(dir: seq<string>, below: seq<string>, isDirectory: bool)
    requires dir != [] && below != [] && Names(dir)
    requires !Builtin(dir + below, isDirectory) && !Reached(dir, below)
    ensures var rules := WithFiles([ShapeFile(PathText(dir), "")]);
      Ignored(rules, dir, true) && !Ignored(rules, dir + below, isDirectory)
  {
    hide Decides, Split, NonEmpty, PathText, Builtin, Join, ShapeRules, SameShape;
    var text, path := PathText(dir), dir + below;
    var rules := ShapeRules(text, "");
    NamedText(dir);
    ShapeFileCompiles(text, "");
    ShapeAtRoot(text, text, true);
    OwnShape(text);
    PiecesBelow(dir, below);
    var pieces := NonEmpty(Split(PathText(path)));
    forall k | 0 < k < |pieces|
      ensures !AncestorDecides(rules, pieces, k)
    {
      ShapeAtRoot(text, Join(pieces[..k]), true);
      AncestorOfAnotherShape(dir, below, k);
    }
    ShapeAtRoot(text, PathText(path), isDirectory);
    SameShapeSameLength(text, PathText(path));
  }

  lemma OwnShape(s: string)
    ensures SameShape(s, s)
  {}

  lemma SameShapeSameLength(s: string, c: string)
    ensures SameShape(s, c) ==> |s| == |c|
  {}

  lemma NamedText(path: seq<string>)
    requires path != [] && Names(path)
    ensures PathText(path) != ""
  {
    hide ForwardSlashes;
    JoinUnfold(path);
  }

  lemma ShapeAtRoot(s: string, text: string, isDirectory: bool)
    requires s != ""
    ensures Decides(ShapeRules(s, ""), text, isDirectory) <==> SameShape(s, text)
  {
    hide Decides, SameShape, Translate, ShapeGlob;
    ShapeDecides(s, "", text, isDirectory);
  }

  lemma AncestorOfAnotherShape(dir: seq<string>, below: seq<string>, k: nat)
    requires dir != [] && below != [] && !Reached(dir, below)
    requires 0 < k < |NonEmpty(Split(PathText(dir + below)))|
    ensures !SameShape(PathText(dir), Join(NonEmpty(Split(PathText(dir + below)))[..k]))
  {
    hide Split, NonEmpty, PathText, Join, SameShape;
    var text := PathText(dir);
    var pieces := NonEmpty(Split(PathText(dir + below)));
    PiecesBelow(dir, below);
    PiecesAreSlashFree(PathText(dir + below));
    SplitOfJoin(pieces[..k]);
    if SameShape(text, Join(pieces[..k])) {
      ShapesSplitAlike(text, Join(pieces[..k]));
      assert "" !in pieces[..k];
      NonEmptyUnchanged(Split(text));
    }
  }

  lemma PiecesAreSlashFree(text: string)
    ensures SlashFree(NonEmpty(Split(text)))
  {
    hide Split;
    SplitJoin(text);
    NonEmptyAreThere(Split(text));
    var comps, pieces := Split(text), NonEmpty(Split(text));
    forall k | 0 <= k < |pieces|
      ensures '/' !in pieces[k]
    {
      assert pieces[k] in comps;
    }
  }

  lemma {:induction false} NonEmptyAreThere(comps: seq<string>)
    ensures forall c :: c in NonEmpty(comps) ==> c in comps
  {
    if comps != [] {
      NonEmptyAreThere(comps[..|comps| - 1]);
    }
  }

  // A directory named `a\` has the text `a/`. The line `a/*` ignores it, and not the file `x` in
  // it, whose text is `a//x`.
  lemma BackslashNameHidesNothing()
    ensures Ignored(WithFiles([RuleFile("a/*", "", 1)]), ["a\\"], true)
    ensures !Ignored(WithFiles([RuleFile("a/*", "", 1)]), ["a\\", "x"], false)
    ensures !Reached(["a\\"], ["x"])
  {
    hide Decides, Split, NonEmpty, PathText, Builtin, Join, WithFiles;
    var rules := WithFiles([RuleFile("a/*", "", 1)]);
    InsideA();
    ShortPaths();
    TextsWithBackslash();
    OneRuleDecides(rules, "a/", true);
    OneRuleDecides(rules, "a", true);
    OneRuleDecides(rules, "a//x", false);
    var pieces := NonEmpty(Split("a//x"));
    forall k | 0 < k < |pieces|
      ensures !AncestorDecides(rules, pieces, k)
    {
      assert pieces[..k] == ["a"];
    }
  }

  lemma ShortPaths()
    ensures !Builtin(["a\\"], true) && !Builtin(["a\\", "x"], false)
  {
    hide IsBuiltinIgnoredDir, IsBuiltinIgnoredFile;
    ShortNamesAreNotBuiltin("a\\");
    ShortNamesAreNotBuiltin("x");
  }

  lemma TextsWithBackslash()
    ensures PathText(["a\\"]) == "a/" && PathText(["a\\", "x"]) == "a//x" && PathText(["x"]) == "x"
    ensures "" in Split("a/") && NonEmpty(Split("a//x")) == ["a", "x"] && Join(["a"]) == "a"
  {
    hide Split, Join, NonEmpty, PathText;
    PlainPieces();
    PiecesBelow(["a\\"], ["x"]);
    assert ["a\\"] + ["x"] == ["a\\", "x"];
  }

  lemma PlainPieces()
    ensures PathText(["a\\"]) == "a/" && PathText(["x"]) == "x" && Join(["a"]) == "a"
    ensures Split("a/") == ["a", ""] && NonEmpty(Split("a/")) == ["a"] && NonEmpty(Split("x")) == ["x"]
  {
    hide Split, Join, NonEmpty, PathText;
    PlainTexts();
    PlainComponents();
    NonEmptyUnchanged(["x"]);
    NonEmptyUnchanged(["a"]);
    assert ["a", ""] == ["a"] + [""];
    NonEmptyOfBoth(["a"], [""]);
    NothingNonEmpty();
    assert ["a"] + [] == ["a"];
  }

  lemma NothingNonEmpty()
    ensures NonEmpty([""]) == []
  {
    assert [""][..0] == [];
  }

  lemma PlainTexts()
    ensures PathText(["a\\"]) == "a/" && PathText(["x"]) == "x" && Join(["a"]) == "a"
  {
    assert "a\\"[1..] == "\\" && "\\"[1..] == "" && "x"[1..] == "";
  }

  lemma PlainComponents()
    ensures Split("a/") == ["a", ""] && Split("x") == ["x"]
  {
    hide Split;
    assert ["a", ""][1..] == [""] && Join(["x"]) == "x" && Join(["a", ""]) == "a/";
    SplitOfJoin(["x"]);
    SplitOfJoin(["a", ""]);
  }

  lemma InsideA()
    ensures WithFiles([RuleFile("a/*", "", 1)]) ==
            [Rule(false, false, "", 1, true, [Literal('a'), Literal('/'), AnyInComponent])]
  {
    hide Lines, ParseLine, Translate, WithFiles;
    OneFile(RuleFile("a/*", "", 1));
    LinesOfOne("a/*");
    ParseLineMarks("a/*", "", "");
    assert "" + "a/*" + "" == "a/*";
    StripNothing("a/*");
    PartsInsideA();
    assert ["a/*"][..0] == [];
  }

  lemma StripNothing(s: string)
    requires s != "" && s[0] != '/'
    ensures TrimStartSlashes(s) == s
  {}

  lemma PartsInsideA()
    ensures Translate("a/*", true) == [Literal('a'), Literal('/'), AnyInComponent]
  {
    assert "a/*"[1..] == "/*" && "/*"[1..] == "*" && "*"[1..] == "";
  }

  /** What the one rule for the entries of `a` decides. */
  lemma OneRuleDecides(rules: seq<Rule>, text: string, isDirectory: bool)
    requires rules == [Rule(false, false, "", 1, true, [Literal('a'), Literal('/'), AnyInComponent])]
    ensures Decides(rules, text, isDirectory) <==> |text| >= 2 && text[0] == 'a' && text[1] == '/' && '/' !in text[2..]
  {
    hide Decides, Matches;
    LastRuleDecides(rules, text, isDirectory);
    assert rules[..0] == [];
    NothingDecides(text, isDirectory);
    var parts := rules[0].parts;
    MatchesUnfold(parts, text);
    if text != "" {
      MatchesUnfold(parts[1..], text[1..]);
      if |text| >= 2 {
        assert text[1..][1..] == text[2..] && parts[1..][1..] == [AnyInComponent];
        StarMatches(true, text[2..]);
      }
    }
  }

  /** When a rule of the strongest precedence applies, the rules of that precedence alone
      decide: a deeper ignore file overrides every shallower one. */
  lemma {:induction false} StrongestPrecedenceDecides(rules: seq<Rule>, p: nat, text: string, isDirectory: bool)
    requires Sorted(rules) && forall r :: r in rules ==> r.precedence <= p
    requires exists r :: r in rules && r.precedence == p && Applies(r, text, isDirectory)
    ensures Decides(rules, text, isDirectory) <==> Decides(OfPrecedence(rules, p), text, isDirectory)
  {
    hide Applies, OfPrecedence, Decides;
    TailOfPrecedence(rules, p);
    if rules[0].precedence == p {
      assert forall k :: 0 <= k < |rules| ==> rules[k].precedence == p;
      OfOnePrecedence(rules, p, p);
    } else {
      var rest := rules[1..];
      StrongestPrecedenceDecides(rest, p, text, isDirectory);
      var r :| r in rules && r.precedence == p && Applies(r, text, isDirectory);
      assert r in rest;
      FirstRuleOverridden(rules, text, isDirectory);
    }
  }

  lemma FirstRuleOverridden(rules: seq<Rule>, text: string, isDirectory: bool)
    requires rules != [] && exists r :: r in rules[1..] && Applies(r, text, isDirectory)
    ensures Decides(rules, text, isDirectory) <==> Decides(rules[1..], text, isDirectory)
  {
    hide Applies;
    var rest := rules[1..];
    assert forall k :: 0 <= k < |rest| ==> rest[k] == rules[k + 1];
    if Decides(rest, text, isDirectory) {
      var i :| 0 <= i < |rest| && Applies(rest[i], text, isDirectory) && !rest[i].negate
        && forall j :: i < j < |rest| ==> !Applies(rest[j], text, isDirectory);
      assert forall j :: i + 1 < j < |rules| ==> rules[j] == rest[j - 1];
      assert Applies(rules[i + 1], text, isDirectory);
    }
    if Decides(rules, text, isDirectory) {
      var i :| 0 <= i < |rules| && Applies(rules[i], text, isDirectory) && !rules[i].negate
        && forall j :: i < j < |rules| ==> !Applies(rules[j], text, isDirectory);
      var r :| r in rest && Applies(r, text, isDirectory);
      var k :| 0 <= k < |rest| && rest[k] == r;
      assert Applies(rules[k + 1], text, isDirectory);
      assert Applies(rest[i - 1], text, isDirectory);
    }
  }

  /** The text lies in directory `dir`. */
  predicate Under(dir: string, text: string) {
    dir == "" || (dir < text && text[|dir|] == '/')
  }

  /** The text goes on from `prefix` without entering the directory of that name: it lies below a
      sibling whose name extends the directory's. */
  predicate Extends(prefix: string, text: string) {
    prefix != "" && prefix < text && text[|prefix|] != '/'
  }

  /** The rules that the documentation lets speak about `text`: those of directories it lies in. */
  function InScope(rules: seq<Rule>, text: string): (r: seq<Rule>)
    ensures forall x :: x in r <==> x in rules && Under(x.prefix, text)
  {
    if rules == [] then []
    else
      var last := rules[|rules| - 1];
      InScope(rules[..|rules| - 1], text) + if Under(last.prefix, text) then [last] else []
  }

  /** All rules come from files in the given directories. */
  predicate From(rules: seq<Rule>, dirs: set<string>) {
    forall r :: r in rules ==> r.prefix in dirs
  }

  /** What a path is decided to be when each rule speaks only about its own directory. */
  ghost predicate IgnoredInScope(rules: seq<Rule>, path: seq<string>, isDirectory: bool) {
    var pieces := NonEmpty(Split(PathText(path)));
    || Builtin(path, isDirectory)
    || (exists k :: 0 < k < |pieces| && AncestorDecides(InScope(rules, Join(pieces[..k])), pieces, k))
    || Decides(InScope(rules, PathText(path)), PathText(path), isDirectory)
  }

  /** A rule that applies outside its directory does so beside an extended name. */
  lemma AppliesOutsideOnlyBesideExtension(rule: Rule, text: string, isDirectory: bool)
    requires Applies(rule, text, isDirectory) && !Under(rule.prefix, text)
    ensures Extends(rule.prefix, text)
  {
    hide RegexMatches;
  }

  /** Where no rule's directory name is extended, the rules out of scope decide nothing. */
  lemma {:induction false} OnlyScopeDecides(rules: seq<Rule>, text: string, isDirectory: bool)
    requires forall r :: r in rules ==> !Extends(r.prefix, text)
    ensures Decides(rules, text, isDirectory) <==> Decides(InScope(rules, text), text, isDirectory)
  {
    hide Decides, Applies, Under;
    if rules != [] {
      var last := |rules| - 1;
      var inner := InScope(rules[..last], text);
      OnlyScopeDecides(rules[..last], text, isDirectory);
      LastRuleDecides(rules, text, isDirectory);
      if Under(rules[last].prefix, text) {
        assert InScope(rules, text) == inner + [rules[last]];
        LastRuleDecides(inner + [rules[last]], text, isDirectory);
        assert (inner + [rules[last]])[..|inner|] == inner;
      } else {
        assert InScope(rules, text) == inner + [] == inner;
        assert rules[last] in rules;
        if Applies(rules[last], text, isDirectory) {
          AppliesOutsideOnlyBesideExtension(rules[last], text, isDirectory);
        }
      }
    }
  }

  /** All files stand in the given directories. */
  predicate FilesIn(files: seq<RuleFile>, dirs: set<string>) {
    forall f :: f in files ==> f.prefix in dirs
  }

  lemma {:induction false} RulesOfFiles(files: seq<RuleFile>, dirs: set<string>)
    requires FilesIn(files, dirs)
    ensures From(WithFiles(files), dirs)
  {
    if files != [] {
      var last := |files| - 1;
      RulesOfFiles(files[..last], dirs);
      var file, before := files[last], WithFiles(files[..last]);
      var added := before + Compile(Lines(file.text), file.prefix, file.precedence);
      Sorting.SortSorts(ByPrecedence, added);
      assert forall r :: r in StableSort(added) <==> r in multiset(StableSort(added));
      assert forall r :: r in added <==> r in multiset(added);
      assert file in files;
    }
  }

  /** The file of directory `dir` that ignores what goes on from `dir` in the shape `text` does. */
  function BesideFile(dir: string, text: string): RuleFile
    requires Extends(dir, text)
  {
    ShapeFile(text[|dir|..], dir)
  }

  /** Beside an extended name some file of the directory decides although it is out of scope. */
  lemma BesideDecides(dir: string, text: string, isDirectory: bool)
    requires Extends(dir, text)
    ensures Decides(WithFiles([BesideFile(dir, text)]), text, isDirectory)
    ensures !Under(dir, text)
  {
    hide Decides, Translate, ShapeGlob, SameShape, WithFiles;
    var s := text[|dir|..];
    ShapeFileCompiles(s, dir);
    ShapeDecides(s, dir, text, isDirectory);
    OwnShape(s);
  }

  /** In scope the file decides only texts one longer. */
  lemma BesideInScope(dir: string, text: string, other: string, isDirectory: bool)
    requires Extends(dir, text)
    ensures Decides(InScope(WithFiles([BesideFile(dir, text)]), other), other, isDirectory) ==>
      Under(dir, other) && |other| == |text| + 1
  {
    hide Decides, Translate, ShapeGlob, SameShape, WithFiles;
    var s := text[|dir|..];
    var rules := ShapeRules(s, dir);
    ShapeFileCompiles(s, dir);
    ShapeDecides(s, dir, other, isDirectory);
    assert rules[..1][0] == rules[0] && rules[..1][..0] == [];
    if Under(dir, other) {
      assert InScope(rules[..1], other) == [] + [rules[0]];
      assert InScope(rules, other) == [rules[0]] + [rules[1]] == rules;
      SameShapeSameLength(s, other[|dir| + 1..]);
    } else {
      assert InScope(rules[..1], other) == [] + [];
      assert InScope(rules, other) == [] + [];
      NothingDecides(other, isDirectory);
    }
  }

  /** A rule of a nested file sees the rest of the path in its directory, and some file of that
      directory has a rule that applies outside it exactly beside an extended name. */
  lemma ScopeOfNestedRule(prefix: string, text: string)
    ensures prefix != "" && Under(prefix, text) ==>
      forall r: Rule :: r.prefix == prefix ==> Candidate(r, text) == Some(text[|prefix| + 1..])
    ensures (exists file: RuleFile, isDirectory ::
               file.prefix == prefix && !Under(prefix, text) && Decides(WithFiles([file]), text, isDirectory))
            <==> Extends(prefix, text)
  {
    hide Decides, WithFiles;
    if Extends(prefix, text) {
      BesideDecides(prefix, text, false);
      assert BesideFile(prefix, text).prefix == prefix;
    }
    if file: RuleFile, isDirectory :|
      file.prefix == prefix && !Under(prefix, text) && Decides(WithFiles([file]), text, isDirectory)
    {
      OneFile(file);
      var rules := WithFiles([file]);
      if !Extends(prefix, text) {
        OnlyScopeDecides(rules, text, isDirectory);
        NoneInScope(rules, text);
        NothingDecides(text, isDirectory);
      }
    }
  }

  lemma NoneInScope(rules: seq<Rule>, text: string)
    requires forall r :: r in rules ==> !Under(r.prefix, text)
    ensures InScope(rules, text) == []
  {
    EmptyTogether(InScope(rules, text), []);
  }

  /** Nested ignore files speak only about their directories, as documented, exactly about the
      texts that extend none of the directories' names. */
  lemma ScopeOfNestedRules(dirs: set<string>, text: string, isDirectory: bool)
    ensures (forall files :: FilesIn(files, dirs) ==>
               (Decides(WithFiles(files), text, isDirectory)
                <==> Decides(InScope(WithFiles(files), text), text, isDirectory)))
            <==> (forall dir :: dir in dirs ==> !Extends(dir, text))
    ensures (forall dir :: dir in dirs ==> !Extends(dir, text)) ==>
      forall rules :: From(rules, dirs) ==>
        (Decides(rules, text, isDirectory) <==> Decides(InScope(rules, text), text, isDirectory))
  {
    hide Decides, Extends, WithFiles;
    if dir :| dir in dirs && Extends(dir, text) {
      BesideDecides(dir, text, isDirectory);
      BesideInScope(dir, text, text, isDirectory);
      assert FilesIn([BesideFile(dir, text)], dirs);
    } else {
      forall rules | From(rules, dirs)
        ensures Decides(rules, text, isDirectory) <==> Decides(InScope(rules, text), text, isDirectory)
      {
        OnlyScopeDecides(rules, text, isDirectory);
      }
      forall files | FilesIn(files, dirs)
        ensures From(WithFiles(files), dirs)
      {
        RulesOfFiles(files, dirs);
      }
    }
  }

  /** The text of the path, or of a directory on the way to it, extends the name of `dir`. */
  ghost predicate ExtendsOnTheWay(dir: string, path: seq<string>) {
    var pieces := NonEmpty(Split(PathText(path)));
    || Extends(dir, PathText(path))
    || exists k :: 0 < k < |pieces| && Extends(dir, Join(pieces[..k]))
  }

  /** The ignore files answer for a path as documented, whatever they say, exactly if a builtin
      name decides it or neither it nor a directory on the way extends one of their directories'
      names. Its names may hold backslashes. */
  lemma PathsAnsweredInScope(dirs: set<string>, path: seq<string>, isDirectory: bool)
    ensures (forall files :: FilesIn(files, dirs) ==>
               (Ignored(WithFiles(files), path, isDirectory)
                <==> IgnoredInScope(WithFiles(files), path, isDirectory)))
            <==> Builtin(path, isDirectory) || forall dir :: dir in dirs ==> !ExtendsOnTheWay(dir, path)
    ensures Builtin(path, isDirectory) || (forall dir :: dir in dirs ==> !ExtendsOnTheWay(dir, path)) ==>
      forall rules :: From(rules, dirs) ==>
        (Ignored(rules, path, isDirectory) <==> IgnoredInScope(rules, path, isDirectory))
  {
    hide Ignored, IgnoredInScope, ExtendsOnTheWay, WithFiles, Builtin;
    if !Builtin(path, isDirectory) {
      if dir :| dir in dirs && ExtendsOnTheWay(dir, path) {
        var text := OutOfScopeOnTheWay(dir, path, isDirectory);
        assert FilesIn([BesideFile(dir, text)], dirs);
        return;
      }
    }
    forall rules | From(rules, dirs)
      ensures Ignored(rules, path, isDirectory) <==> IgnoredInScope(rules, path, isDirectory)
    {
      AnsweredInScope(rules, dirs, path, isDirectory);
    }
    forall files | FilesIn(files, dirs)
      ensures From(WithFiles(files), dirs)
    {
      RulesOfFiles(files, dirs);
    }
  }

  lemma AnsweredInScope(rules: seq<Rule>, dirs: set<string>, path: seq<string>, isDirectory: bool)
    requires From(rules, dirs)
    requires Builtin(path, isDirectory) || forall dir :: dir in dirs ==> !ExtendsOnTheWay(dir, path)
    ensures Ignored(rules, path, isDirectory) <==> IgnoredInScope(rules, path, isDirectory)
  {
    hide Decides, Extends, Split, NonEmpty, PathText, Builtin, Join;
    if !Builtin(path, isDirectory) {
      OnlyScopeDecides(rules, PathText(path), isDirectory);
      var pieces := NonEmpty(Split(PathText(path)));
      forall k | 0 < k < |pieces|
        ensures AncestorDecides(rules, pieces, k) <==> AncestorDecides(InScope(rules, Join(pieces[..k])), pieces, k)
      {
        OnlyScopeDecides(rules, Join(pieces[..k]), true);
      }
    }
  }

  /** Some file in a directory whose name is extended on the way ignores the path although, kept
      to its directory, it would not. */
  lemma OutOfScopeOnTheWay(dir: string, path: seq<string>, isDirectory: bool) returns (text: string)
    requires ExtendsOnTheWay(dir, path) && !Builtin(path, isDirectory)
    ensures Extends(dir, text)
    ensures Ignored(WithFiles([BesideFile(dir, text)]), path, isDirectory)
    ensures !IgnoredInScope(WithFiles([BesideFile(dir, text)]), path, isDirectory)
  {
    hide Decides, Split, NonEmpty, PathText, Builtin, Join, WithFiles, InScope;
    var whole := PathText(path);
    var pieces := NonEmpty(Split(whole));
    if Extends(dir, whole) {
      text := whole;
      BesideDecides(dir, text, isDirectory);
    } else {
      var k :| 0 < k < |pieces| && Extends(dir, Join(pieces[..k]));
      text := Join(pieces[..k]);
      AncestorIsShorter(whole, k);
      BesideDecides(dir, text, true);
      assert AncestorDecides(WithFiles([BesideFile(dir, text)]), pieces, k);
    }
    var rules := WithFiles([BesideFile(dir, text)]);
    forall k | 0 < k < |pieces|
      ensures !AncestorDecides(InScope(rules, Join(pieces[..k])), pieces, k)
    {
      BesideInScope(dir, text, Join(pieces[..k]), true);
      AncestorIsShorter(whole, k);
      if text != whole {
        OnOneSide(dir, text, Join(pieces[..k]), Join(pieces));
      }
    }
    BesideInScope(dir, text, whole, isDirectory);
  }

  lemma OnOneSide(dir: string, text: string, other: string, whole: string)
    requires Extends(dir, text) && text <= whole && other <= whole
    ensures !Under(dir, other)
  {}

  /** A directory on the way is a prefix of one text, and two characters short of the whole. */
  lemma AncestorIsShorter(whole: string, k: nat)
    requires 0 < k < |NonEmpty(Split(whole))|
    ensures var pieces := NonEmpty(Split(whole));
      Join(pieces[..k]) <= Join(pieces) && |Join(pieces[..k])| + 2 <= |whole|
  {
    hide Join, Split, NonEmpty;
    var pieces := NonEmpty(Split(whole));
    SplitJoin(whole);
    JoinShrinks(Split(whole));
    assert pieces == pieces[..k] + pieces[k..];
    JoinConcat(pieces[..k], pieces[k..]);
    JoinUnfold(pieces[k..]);
    assert pieces[k] in pieces;
  }

  /** Dropping empty components makes the joined text no longer. */
  lemma {:induction false} JoinShrinks(comps: seq<string>)
    ensures |Join(NonEmpty(comps))| <= |Join(comps)|
  {
    hide Join;
    JoinEmpty();
    if comps != [] {
      var last := |comps| - 1;
      var init, kept := comps[..last], NonEmpty(comps[..last]);
      JoinShrinks(init);
      assert comps == init + [comps[last]];
      JoinUnfold([comps[last]]);
      assert Join([comps[last]]) == comps[last];
      if init != [] { JoinConcat(init, [comps[last]]); } else { assert comps == [comps[last]]; }
      if kept != [] { JoinConcat(kept, [comps[last]]); } else { assert kept + [comps[last]] == [comps[last]]; }
      assert NonEmpty(comps) == if comps[last] == "" then kept else kept + [comps[last]];
    }
  }

  /** For names without backslashes, the path's own text is the one to look at. */
  lemma ExtensionOfCleanPath(dir: string, path: seq<string>)
    requires path != [] && Clean(path)
    ensures ExtendsOnTheWay(dir, path) <==> Extends(dir, Join(path))
  {
    hide Extends, Split, NonEmpty, PathText, Join;
    PiecesOfCleanPath(path);
    forall k | 0 < k < |path|
      ensures Extends(dir, Join(path[..k])) ==> Extends(dir, Join(path))
    {
      ExtensionGoesOn(path, k);
    }
  }

  /** What an ancestor extends, the whole path extends. */
  lemma ExtensionGoesOn(path: seq<string>, k: nat)
    requires k <= |path|
    ensures Join(path[..k]) <= Join(path)
    ensures forall dir :: Extends(dir, Join(path[..k])) ==> Extends(dir, Join(path))
    ensures forall dir :: dir != "" && Under(dir, Join(path[..k])) ==> Under(dir, Join(path))
  {
    hide Join;
    assert path == path[..k] + path[k..];
    if k == 0 {
      JoinEmpty();
      assert path[..0] == [];
    } else if k == |path| {
      assert path[..k] == path;
    } else {
      JoinConcat(path[..k], path[k..]);
    }
  }

  /** The line `/b` in the ignore file of directory `a` also ignores the file `ab` beside it, of
      which it is documented to say nothing. */
  lemma RuleLeaksIntoSibling()
    ensures Ignored(Compile(["/b"], "a", 2), ["ab"], false)
    ensures !IgnoredInScope(Compile(["/b"], "a", 2), ["ab"], false)
  {
    hide Decides, Compile, Translate, Matches, Split, NonEmpty, PathText, Builtin, Under, InScope;
    var rules := Compile(["/b"], "a", 2);
    LeakingRule();
    LiteralGlobMatchesItself("b", true);
    assert "ab"[1..] == "b" && rules[..0] == [];
    LastRuleDecides(rules, "ab", false);
    SiblingFile();
    assert !Under("a", "ab") by { OutsideA(); }
    NoneInScope(rules, "ab");
    NothingDecides("ab", false);
  }

  lemma OutsideA()
    ensures !Under("a", "ab")
  {}

  lemma LeakingRule()
    ensures Compile(["/b"], "a", 2) == [Rule(false, false, "a", 2, true, Translate("b", true))]
  {
    assert Trim("/b") == "/b";
    assert ParseLine("/b") == Some(Pattern(false, false, true, "b"));
    assert ["/b"][..0] == [];
    assert Compile(["/b"], "a", 2) == Compile([], "a", 2) + [Rule(false, false, "a", 2, true, Translate("b", true))];
  }

  lemma SiblingFile()
    ensures PathText(["ab"]) == "ab" && NonEmpty(Split("ab")) == ["ab"]
    ensures !Builtin(["ab"], false)
  {
    hide IsBuiltinIgnoredDir, IsBuiltinIgnoredFile;
    PiecesOfCleanPath(["ab"]);
    assert Join(["ab"]) == "ab";
    ShortNamesAreNotBuiltin("ab");
  }

  lemma ShortNamesAreNotBuiltin(name: string)
    requires |name| <= 2
    ensures !IsBuiltinIgnoredDir(name) && !IsBuiltinIgnoredFile(name)
  {
    BuiltinDirsAreLong();
    BuiltinSuffixesAreLong();
    assert |ALWAYS_IGNORED_NAMES[0]| > 2 && |ALWAYS_IGNORED_NAMES[1]| > 2;
  }

  lemma BuiltinDirsAreLong()
    ensures forall k :: 0 <= k < |ALWAYS_IGNORED_DIRS| ==> |ALWAYS_IGNORED_DIRS[k]| > 2
  {}

  lemma BuiltinSuffixesAreLong()
    ensures forall k :: 0 <= k < |ALWAYS_IGNORED_SUFFIXES| ==> |ALWAYS_IGNORED_SUFFIXES[k]| > 2
  {}

  lemma {:induction false} LiteralGlobMatchesItself(p: string, atStart: bool)
    requires '*' !in p && '?' !in p && '\\' !in p
    ensures Matches(Translate(p, atStart), p)
  {
    if p != "" {
      LiteralGlobMatchesItself(p[1..], p[0] == '/');
    }
  }
}
