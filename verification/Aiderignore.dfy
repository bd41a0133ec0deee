/** The generated aiderignore (`local_runner.py`): escaping paths into patterns, and which files the
    patterns then ignore. */
module Aiderignore {

  const METACHARACTERS := ['\\', '[', ']', '*', '?']
  const SEPARATOR := "# " + "--- cw #1915: plan-manifest enforcement ---"

  // ----- escaping ----------------------------------------------------------------------------------

  /** `text.replace(ch, "\\" + ch)`. */
  function Replace(text: string, ch: char): string {
    if text == "" then ""
    else (if text[0] == ch then ['\\', ch] else [text[0]]) + Replace(text[1..], ch)
  }

  /** Every character of `special` escaped, in one pass. */
  function EscapeEach(text: string, special: set<char>): string {
    if text == "" then ""
    else (if text[0] in special then ['\\', text[0]] else [text[0]]) + EscapeEach(text[1..], special)
  }

  const SPECIAL := {'\\', '[', ']', '*', '?'}

  function Escape(path: string): string {
    EscapeEach(path, SPECIAL)
  }

  lemma {:induction false} ReplaceConcat(a: string, b: string, ch: char)
    ensures Replace(a + b, ch) == Replace(a, ch) + Replace(b, ch)
  {
    if a == "" {
      assert a + b == b;
    } else {
      assert (a + b)[1..] == a[1..] + b && (a + b)[0] == a[0];
      ReplaceConcat(a[1..], b, ch);
      var h, x, y := if a[0] == ch then ['\\', ch] else [a[0]], Replace(a[1..], ch), Replace(b, ch);
      assert h + (x + y) == (h + x) + y;
    }
  }

  lemma ReplaceShort(c: char, ch: char)
    ensures Replace([c], ch) == if c == ch then ['\\', ch] else [c]
    ensures ch != '\\' && c != ch ==> Replace(['\\', c], ch) == ['\\', c]
  {
    assert [c][1..] == "" && ['\\', c][1..] == [c];
  }

  /** One more replacement pass escapes one more character, and leaves the escapes alone. */
  lemma {:induction false} ReplaceEscaped(text: string, special: set<char>, ch: char)
    requires ch !in special && (ch == '\\' ==> special == {})
    ensures Replace(EscapeEach(text, special), ch) == EscapeEach(text, special + {ch})
  {
    if text != "" {
      var head := if text[0] in special then ['\\', text[0]] else [text[0]];
      ReplaceEscaped(text[1..], special, ch);
      ReplaceConcat(head, EscapeEach(text[1..], special), ch);
      ReplaceShort(text[0], ch);
    }
  }

  lemma {:induction false} EscapeNothing(text: string)
    ensures EscapeEach(text, {}) == text
  {
    if text != "" {
      EscapeNothing(text[1..]);
    }
  }

  /** `_escape_gitwildmatch`: the passes one after the other do what one pass would. */
  method EscapeGitWildMatch(path: string) returns (escaped: string)
    ensures escaped == Escape(path)
  {
    escaped := path;
    ghost var done: set<char> := {};
    EscapeNothing(path);
    for i := 0 to |METACHARACTERS|
      invariant done == set c | c in METACHARACTERS[..i]
      invariant escaped == EscapeEach(path, done)
    {
      assert METACHARACTERS[..i + 1] == METACHARACTERS[..i] + [METACHARACTERS[i]];
      assert METACHARACTERS[i] !in done && (METACHARACTERS[i] == '\\' ==> done == {});
      ReplaceEscaped(path, done, METACHARACTERS[i]);
      escaped := Replace(escaped, METACHARACTERS[i]);
      done := done + {METACHARACTERS[i]};
    }
    assert METACHARACTERS[..|METACHARACTERS|] == METACHARACTERS;
    assert done == SPECIAL by {
      assert forall c :: c in METACHARACTERS <==> c in SPECIAL;
    }
  }

  /** Backslash must come first: after another pass, its own pass escapes the escapes. */
  lemma BackslashFirst()
    ensures Replace(Replace("[", '['), '\\') != Escape("[") && Replace(Replace("[", '\\'), '[') == Escape("[")
  {
    ReplaceShort('[', '[');
    ReplaceShort('[', '\\');
    assert "["[1..] == "" && ['\\', '['][1..] == "[";
    assert Replace("", '\\') == "" && Replace("", '[') == "";
    assert Replace(['\\', '['], '\\') == ['\\', '\\'] + Replace("[", '\\');
    assert EscapeEach("", SPECIAL) == "";
  }

  // ----- the pattern language ----------------------------------------------------------------------

  /** Where the bracket expression opened before `from` ends, else the length. */
  function ClassEnd(pattern: string, from: nat): (end: nat)
    requires from <= |pattern|
    ensures from <= end <= |pattern|
    decreases |pattern| - from
  {
    if from == |pattern| || pattern[from] == ']' then from else ClassEnd(pattern, from + 1)
  }

  /** Single characters and ranges. */
  predicate InClass(members: string, c: char) {
    if members == "" then false
    else if |members| >= 3 && members[1] == '-' then members[0] <= c <= members[2] || InClass(members[3..], c)
    else members[0] == c || InClass(members[1..], c)
  }

  lemma {:induction false} ClassOfSingles(members: string, c: char)
    requires forall i :: 0 <= i < |members| ==> members[i] != '-'
    ensures InClass(members, c) <==> c in members
  {
    if members != "" {
      ClassOfSingles(members[1..], c);
    }
  }

  /** A range, and what follows it. */
  lemma ClassOfRange(lo: char, hi: char, rest: string, c: char)
    ensures InClass([lo, '-', hi] + rest, c) <==> lo <= c <= hi || InClass(rest, c)
  {
    assert ([lo, '-', hi] + rest)[3..] == rest;
  }

  /** Does a root-anchored pattern match the path, or a directory the path lies in. A slash at the end
      makes it a pattern for directories only, which matches everything in one. */
  predicate Glob(pattern: string, path: string)
    decreases |pattern| + |path|
  {
    if pattern == "" then path == "" || path[0] == '/'
    else if pattern == "/" then path != "" && path[0] == '/'
    else if pattern[0] == '*' then
      Glob(pattern[1..], path) || (path != "" && path[0] != '/' && Glob(pattern, path[1..]))
    else if path == "" then false
    else if pattern[0] == '?' then path[0] != '/' && Glob(pattern[1..], path[1..])
    else if pattern[0] == '\\' && |pattern| > 1 then path[0] == pattern[1] && Glob(pattern[2..], path[1..])
    else if pattern[0] == '[' then
      var end := ClassEnd(pattern, 1);
      end < |pattern| && path[0] != '/' && InClass(pattern[1..end], path[0]) && Glob(pattern[end + 1..], path[1..])
    else path[0] == pattern[0] && Glob(pattern[1..], path[1..])
  }

  predicate EndsInSlash(name: string) {
    name != "" && name[|name| - 1] == '/'
  }

  /** `path` is `name`, or lies in a directory called `name`, written with or without a final slash. */
  predicate Under(name: string, path: string) {
    name <= path && (path == name || EndsInSlash(name) || path[|name|] == '/')
  }

  /** The escaped path matches itself and what lies under it, and nothing else. */
  lemma {:induction false} EscapedIsLiteral(name: string, path: string)
    ensures Glob(Escape(name), path) <==> Under(name, path)
  {
    if name == "/" {
      assert name[1..] == "" && Escape("") == "";
      assert Escape(name) == "/" + "" == "/";
      assert path != "" && path[0] == '/' ==> path[..1] == "/";
    } else if name != "" {
      var c, rest := name[0], Escape(name[1..]);
      if name[1..] != "" {
        EscapeEnds(name[1..]);
      }
      assert Escape(name) == (if c in SPECIAL then ['\\', c] else [c]) + rest;
      if path != "" {
        EscapedIsLiteral(name[1..], path[1..]);
        EscapedHead(c, rest, path);
        UnderTail(name, path);
      } else {
        EscapedHead(c, rest, path);
      }
    }
  }

  lemma UnderTail(name: string, path: string)
    requires name != "" && name != "/" && path != ""
    ensures Under(name, path) <==> name[0] == path[0] && Under(name[1..], path[1..])
  {
    if name[0] == path[0] && name[1..] <= path[1..] {
      assert name == [name[0]] + name[1..] && path == [path[0]] + path[1..];
    }
    if name <= path {
      assert name[1..] == path[1..][..|name| - 1];
    }
  }

  lemma EscapedHead(c: char, rest: string, path: string)
    requires c != '/' || rest != ""
    ensures var head := if c in SPECIAL then ['\\', c] else [c];
            Glob(head + rest, path) <==> path != "" && path[0] == c && Glob(rest, path[1..])
  {
    if c in SPECIAL {
      assert (['\\', c] + rest)[2..] == rest;
    } else {
      assert ([c] + rest)[1..] == rest;
    }
  }

  /** Unescaped, a path with a bracket segment matches another file and not itself. */
  lemma UnescapedGoesWrong()
    ensures Glob("[b]", "b") && !Glob("[b]", "[b]")
  {
    assert "[b]"[1] != ']' && "[b]"[2] == ']';
    assert ClassEnd("[b]", 2) == 2 && ClassEnd("[b]", 1) == 2;
    assert "[b]"[1..2] == "b" && "[b]"[3..] == "" && "b"[1..] == "";
    assert Glob("", "");
    assert "b"[0] == 'b';
    assert InClass("b", 'b') && !InClass("b", '[');
  }

  // ----- rules, the last match winning ---------------------------------------------------------------

  datatype Rule = Comment | Rule(negated: bool, pattern: string)

  predicate IsBlank(c: char) {
    c == ' ' || c == '\t'
  }

  /** Trailing blanks are no part of a pattern. */
  function Trimmed(line: string): string {
    if line == "" || !IsBlank(line[|line| - 1]) then line else Trimmed(line[..|line| - 1])
  }

  /** A line as a rule; patterns with a leading slash are anchored at the root, the only kind cw
      writes, and any other pattern is read as if it were. */
  function ParseRule(raw: string): Rule {
    var line := Trimmed(raw);
    if line == "" || line[0] == '#' then Comment
    else
      var negated := line[0] == '!';
      var body := if negated then line[1..] else line;
      Rule(negated, if body != "" && body[0] == '/' then body[1..] else body)
  }

  predicate Applies(line: string, path: string) {
    var rule := ParseRule(line);
    rule.Rule? && Glob(rule.pattern, path)
  }

  predicate Negates(line: string) {
    ParseRule(line).Rule? && ParseRule(line).negated
  }

  /** Is the path ignored: the last line that applies decides. */
  predicate Ignored(lines: seq<string>, path: string) {
    if lines == [] then false
    else
      var last := lines[|lines| - 1];
      if Applies(last, path) then !Negates(last) else Ignored(lines[..|lines| - 1], path)
  }

  /** A path is ignored exactly when a line applies to it and the last such line is no negation. */
  lemma {:induction false} IgnoredMeaning(lines: seq<string>, path: string)
    ensures Ignored(lines, path) <==>
            exists i :: 0 <= i < |lines| && Applies(lines[i], path) && !Negates(lines[i])
                     && forall k :: i < k < |lines| ==> !Applies(lines[k], path)
    decreases |lines|
  {
    hide Applies, Negates;
    if lines != [] {
      var n := |lines| - 1;
      IgnoredMeaning(lines[..n], path);
      if Applies(lines[n], path) {
        assert Ignored(lines, path) <==> !Negates(lines[n]);
      } else if Ignored(lines, path) {
        var i :| 0 <= i < n && Applies(lines[..n][i], path) && !Negates(lines[..n][i])
                 && forall k :: i < k < n ==> !Applies(lines[..n][k], path);
        assert lines[..n][i] == lines[i];
        forall k | i < k < |lines| ensures !Applies(lines[k], path) {
          assert k < n ==> lines[..n][k] == lines[k];
        }
      } else {
        forall i | 0 <= i < |lines| && Applies(lines[i], path) && !Negates(lines[i])
          ensures exists k :: i < k < |lines| && Applies(lines[k], path)
        {
          assert lines[..n][i] == lines[i];
          var k :| i < k < n && Applies(lines[..n][k], path);
          assert lines[..n][k] == lines[k];
        }
      }
    }
  }

  function BlockLine(path: string): string {
    "/" + Escape(path)
  }

  function AllowLine(path: string): string {
    "!/" + Escape(path)
  }

  /** The lines `build_aiderignore` writes: what was there, a separator, the blocks, the negations. */
  function Lines(existing: seq<string>, blocked: seq<string>, named: seq<string>): seq<string> {
    existing + [SEPARATOR] + BlockLines(blocked) + AllowLines(named)
  }

  function BlockLines(blocked: seq<string>): seq<string> {
    seq(|blocked|, i requires 0 <= i < |blocked| => BlockLine(blocked[i]))
  }

  function AllowLines(named: seq<string>): seq<string> {
    seq(|named|, i requires 0 <= i < |named| => AllowLine(named[i]))
  }

  /** A path a pattern line can carry: not empty, no blank at the end. */
  predicate Plain(path: string) {
    path != "" && !IsBlank(path[|path| - 1])
  }

  lemma {:induction false} EscapeEnds(path: string)
    requires path != ""
    ensures Escape(path) != "" && Escape(path)[|Escape(path)| - 1] == path[|path| - 1]
  {
    var head := if path[0] in SPECIAL then ['\\', path[0]] else [path[0]];
    assert Escape(path) == head + Escape(path[1..]);
    if |path| > 1 {
      EscapeEnds(path[1..]);
    } else {
      assert path[1..] == "";
    }
  }

  /** What cw's lines apply to. */
  lemma LineApplies(name: string, path: string)
    requires Plain(name)
    ensures Applies(BlockLine(name), path) <==> Under(name, path)
    ensures Applies(AllowLine(name), path) <==> Under(name, path)
    ensures !Negates(BlockLine(name)) && Negates(AllowLine(name))
  {
    hide Escape, Glob;
    EscapeEnds(name);
    EscapedIsLiteral(name, path);
    var block, allow := BlockLine(name), AllowLine(name);
    assert block[|block| - 1] == name[|name| - 1] && allow[|allow| - 1] == name[|name| - 1];
    assert Trimmed(block) == block && Trimmed(allow) == allow;
    assert block[1..] == Escape(name) && allow[0] == '!' && block[0] == '/';
    var rest := "/" + Escape(name);
    assert allow == ['!'] + rest;
    assert allow[1..] == rest && rest[1..] == Escape(name);
  }

  /** Behind any earlier lines, the negations allow exactly what they name. */
  lemma {:induction false} AfterNegations(before: seq<string>, named: seq<string>, path: string)
    requires forall i :: 0 <= i < |named| ==> Plain(named[i])
    ensures Ignored(before + AllowLines(named), path) <==>
            Ignored(before, path) && forall i :: 0 <= i < |named| ==> !Under(named[i], path)
    decreases |named|
  {
    hide AllowLine, Applies, Negates, Under;
    var n := |named| - 1;
    var all := before + AllowLines(named);
    if named == [] {
      assert all == before;
    } else {
      AfterNegations(before, named[..n], path);
      assert all[..|all| - 1] == before + AllowLines(named[..n]);
      assert all[|all| - 1] == AllowLine(named[n]);
      LineApplies(named[n], path);
      assert (forall i :: 0 <= i < |named| ==> !Under(named[i], path)) <==>
             (forall i :: 0 <= i < n ==> !Under(named[..n][i], path)) && !Under(named[n], path);
    }
  }

  /** Behind any earlier lines, a block line for a path ignores it. */
  lemma {:induction false} AfterBlocks(before: seq<string>, blocked: seq<string>, path: string)
    requires (forall i :: 0 <= i < |blocked| ==> Plain(blocked[i])) && path in blocked
    ensures Ignored(before + BlockLines(blocked), path)
    decreases |blocked|
  {
    hide BlockLine, Applies, Negates;
    var n := |blocked| - 1;
    var all := before + BlockLines(blocked);
    LineApplies(blocked[n], path);
    assert all[|all| - 1] == BlockLine(blocked[n]);
    if !Under(blocked[n], path) {
      assert path != blocked[n] by { UnderSelf(path); }
      assert path in blocked[..n];
      AfterBlocks(before, blocked[..n], path);
      assert all[..|all| - 1] == before + BlockLines(blocked[..n]);
    }
  }

  /** Whatever the file held before, a tracked file is ignored exactly when the manifest names neither
      it nor a directory it lies in. The lines of each kind may come in any order. */
  lemma IgnoredExactly(existing: seq<string>, tracked: set<string>, manifest: set<string>,
                       blocked: seq<string>, named: seq<string>, path: string)
    requires forall f :: f in blocked <==> f in tracked && f !in manifest
    requires forall f :: f in named <==> f in manifest
    requires forall f :: f in tracked || f in manifest ==> Plain(f)
    requires path in tracked
    ensures Ignored(Lines(existing, blocked, named), path) <==> forall m :: m in manifest ==> !Under(m, path)
  {
    hide BlockLines, AllowLines, Ignored, Plain, Under;
    var before := existing + [SEPARATOR];
    var blocks := before + BlockLines(blocked);
    forall i | 0 <= i < |named| ensures Plain(named[i]) { assert named[i] in named; }
    forall i | 0 <= i < |blocked| ensures Plain(blocked[i]) { assert blocked[i] in blocked; }
    AfterNegations(blocks, named, path);
    assert (forall m :: m in manifest ==> !Under(m, path))
        <==> (forall i :: 0 <= i < |named| ==> !Under(named[i], path)) by {
      forall m | m in manifest ensures m in named { }
      forall i | 0 <= i < |named| ensures named[i] in manifest { assert named[i] in named; }
    }
    if path in manifest {
      assert Under(path, path) by { UnderSelf(path); }
    } else {
      AfterBlocks(before, blocked, path);
    }
  }

  lemma UnderSelf(path: string)
    ensures Under(path, path)
  {
  }

  /** Hence the promise of the manifest, tracked files ignored exactly when it does not name them, holds
      for a tracked file iff it is named or no manifest entry is a directory around it. */
  lemma ManifestPromise(existing: seq<string>, tracked: set<string>, manifest: set<string>,
                        blocked: seq<string>, named: seq<string>, path: string)
    requires forall f :: f in blocked <==> f in tracked && f !in manifest
    requires forall f :: f in named <==> f in manifest
    requires forall f :: f in tracked || f in manifest ==> Plain(f)
    requires path in tracked
    ensures (Ignored(Lines(existing, blocked, named), path) <==> path !in manifest)
       <==> (path in manifest || forall m :: m in manifest ==> !(m < path && (path[|m|] == '/' || EndsInSlash(m))))
  {
    hide Ignored, Lines;
    IgnoredExactly(existing, tracked, manifest, blocked, named, path);
    UnderSelf(path);
  }

  /** A directory entry, with the slash the manifest parser keeps or without it, lets everything in the
      directory through. */
  lemma DirectoryEntryOpens(existing: seq<string>, dir: string)
    requires dir == "some/dir/" || dir == "some/dir"
    ensures !Ignored(Lines(existing, ["some/dir/x"], [dir]), "some/dir/x")
  {
    hide Ignored, Lines;
    assert dir != "some/dir/x" && dir <= "some/dir/x";
    IgnoredExactly(existing, {"some/dir/x"}, {dir}, ["some/dir/x"], [dir], "some/dir/x");
  }

  /** That no path ends in a blank is needed: the line of one that does loses the blank, and the path is not
      ignored. */
  lemma TrailingBlankIsLost(c: char)
    requires c == ' ' || c == '\t'
    ensures !Ignored(Lines([], [['a', c]], []), ['a', c])
  {
    hide Glob;
    var path := ['a', c];
    var lines := Lines([], [path], []);
    assert path[1..] == [c] && [c][1..] == "" && Escape("") == "";
    assert c !in SPECIAL && 'a' !in SPECIAL;
    assert Escape([c]) == [c] + "" == [c];
    assert Escape(path) == ['a'] + [c] == path;
    var line := BlockLine(path);
    assert line == ['/', 'a', c] && lines == [SEPARATOR, line];
    assert line[..2] == "/a" && Trimmed("/a") == "/a" && Trimmed(line) == "/a";
    assert ParseRule(line) == Rule(false, "a");
    assert !Glob("a", path) by { NotInA(path, c); }
    assert !Applies(SEPARATOR, path) by { SeparatorIsComment(); }
    assert lines[0] == SEPARATOR && lines[1] == line;
    hide Applies;
    IgnoredMeaning(lines, path);
  }

  lemma SeparatorIsComment()
    ensures ParseRule(SEPARATOR) == Comment
  {
    assert SEPARATOR[|SEPARATOR| - 1] == '-' && SEPARATOR[0] == '#';
  }

  lemma NotInA(path: string, c: char)
    requires path == ['a', c] && c != '/'
    ensures !Glob("a", path)
  {
    assert "a"[1..] == "" && path[1..] == [c];
    assert !Glob("", [c]);
  }
}
