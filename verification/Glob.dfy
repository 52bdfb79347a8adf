/** The compiler from ignore-file globs to regular expressions, and what its output means.

    `Matches` gives the meaning of the emitted regular expression, a flat scan of the path
    text. `Accepts` is the reference: it reads the glob itself, one path component at a time. */
module Glob {
  // ---- The emitted regular expression ----------------------------------------------

  /** One piece of the emitted regular expression. */
  datatype Part =
    | Literal(c: char)  // an escaped character
    | AnyInComponent    // [^/]*
    | OneInComponent    // [^/]
    | Anything          // .*
    | Directories       // (?:.*/)?

  /** The pieces, in order, consume exactly `text`. The dot stops at a line feed. */
  predicate Matches(parts: seq<Part>, text: string)
    decreases |parts|
  {
    if parts == [] then text == ""
    else
      var rest := parts[1..];
      match parts[0]
      case Literal(c) => text != "" && text[0] == c && Matches(rest, text[1..])
      case OneInComponent => text != "" && text[0] != '/' && Matches(rest, text[1..])
      case AnyInComponent =>
        exists i :: 0 <= i <= |text| && '/' !in text[..i] && Matches(rest, text[i..])
      case Anything =>
        exists i :: 0 <= i <= |text| && '\n' !in text[..i] && Matches(rest, text[i..])
      case Directories =>
        || Matches(rest, text)
        || exists i :: 0 <= i < |text| && text[i] == '/' && '\n' !in text[..i] && Matches(rest, text[i + 1..])
  }

  /** `^parts$` when anchored, `(?:^|/)parts$` otherwise. */
  predicate RegexMatches(anchored: bool, parts: seq<Part>, text: string) {
    if anchored then Matches(parts, text)
    else exists i :: 0 <= i <= |text| && (i == 0 || text[i - 1] == '/') && Matches(parts, text[i..])
  }

  // ---- The compiler -----------------------------------------------------------------

  /** The piece emitted for the front of the glob `p` and the characters it stands for;
      `atStart` says that a component starts here. */
  function FirstPart(p: string, atStart: bool): (r: (Part, nat))
    requires p != ""
    ensures 1 <= r.1 <= |p|
  {
    if p[0] == '\\' then
      if |p| > 1 then (Literal(p[1]), 2) else (Literal('\\'), 1)
    else if p[0] == '*' && |p| > 1 && p[1] == '*' then
      if atStart && |p| > 2 && p[2] == '/' then (Directories, 3) else (Anything, 2)
    else if p[0] == '*' then (AnyInComponent, 1)
    else if p[0] == '?' then (OneInComponent, 1)
    else (Literal(p[0]), 1)
  }

  function Translate(p: string, atStart: bool): seq<Part>
    decreases |p|
  {
    if p == "" then []
    else
      var (part, n) := FirstPart(p, atStart);
      [part] + Translate(p[n..], p[n - 1] == '/')
  }

  method CompilePattern(raw: string) returns (parts: seq<Part>)
    ensures parts == Translate(raw, true)
  {
    hide FirstPart, Translate;
    parts := [];
    var index := 0;
    assert raw[0..] == raw;
    while index < |raw|
      invariant index <= |raw|
      invariant parts + Translate(raw[index..], index == 0 || raw[index - 1] == '/') == Translate(raw, true)
    {
      TranslateStep(raw, index, parts);
      var ch := raw[index];
      if ch == '\\' {
        if index + 1 < |raw| {
          parts := parts + [Literal(raw[index + 1])];
          index := index + 2;
        } else {
          parts := parts + [Literal('\\')];
          index := index + 1;
        }
      } else if ch == '*' && index + 1 < |raw| && raw[index + 1] == '*' {
        var afterSlash := index == 0 || raw[index - 1] == '/';
        var followedBySlash := index + 2 < |raw| && raw[index + 2] == '/';
        if afterSlash && followedBySlash {
          parts := parts + [Directories];
          index := index + 3;
        } else {
          parts := parts + [Anything];
          index := index + 2;
        }
      } else if ch == '*' {
        parts := parts + [AnyInComponent];
        index := index + 1;
      } else if ch == '?' {
        parts := parts + [OneInComponent];
        index := index + 1;
      } else {
        parts := parts + [Literal(ch)];
        index := index + 1;
      }
    }
    TranslateEmpty(raw[index..], index == 0 || raw[index - 1] == '/');
  }

  lemma TranslateEmpty(p: string, atStart: bool)
    requires p == ""
    ensures Translate(p, atStart) == []
  {
  }

  /** One turn of the compiler's loop, read off the characters at `index`. */
  lemma TranslateStep(raw: string, index: nat, parts: seq<Part>)
    requires index < |raw|
    ensures var afterSlash := index == 0 || raw[index - 1] == '/';
            var (ch, left) := (raw[index], |raw| - index);
            var (part, n) :=
              if ch == '\\' then if left > 1 then (Literal(raw[index + 1]), 2) else (Literal('\\'), 1)
              else if ch == '*' && left > 1 && raw[index + 1] == '*' then
                if afterSlash && left > 2 && raw[index + 2] == '/' then (Directories, 3) else (Anything, 2)
              else if ch == '*' then (AnyInComponent, 1)
              else if ch == '?' then (OneInComponent, 1)
              else (Literal(ch), 1);
            parts + Translate(raw[index..], afterSlash)
            == parts + [part] + Translate(raw[index + n..], raw[index + n - 1] == '/')
  {
    hide Translate;
    var afterSlash := index == 0 || raw[index - 1] == '/';
    var p := raw[index..];
    var (part, n) := FirstPart(p, afterSlash);
    assert p[n..] == raw[index + n..];
    TranslateUnfold(p, afterSlash);
    assert parts + ([part] + Translate(p[n..], p[n - 1] == '/')) == parts + [part] + Translate(p[n..], p[n - 1] == '/');
  }

  lemma TranslateUnfold(p: string, atStart: bool)
    requires p != ""
    ensures var (part, n) := FirstPart(p, atStart);
            Translate(p, atStart) == [part] + Translate(p[n..], p[n - 1] == '/')
  {
    hide FirstPart;
  }

  // ---- Paths as components ------------------------------------------------------------

  /** The components of a path text, empty ones included. */
  function Split(text: string): (comps: seq<string>)
    ensures comps != []
  {
    if text == "" then [""]
    else
      var rest := Split(text[1..]);
      if text[0] == '/' then [""] + rest else [[text[0]] + rest[0]] + rest[1..]
  }

  function Join(comps: seq<string>): string {
    if comps == [] then ""
    else if |comps| == 1 then comps[0]
    else comps[0] + "/" + Join(comps[1..])
  }

  predicate SlashFree(comps: seq<string>) {
    forall k :: 0 <= k < |comps| ==> '/' !in comps[k]
  }

  predicate OneLine(comps: seq<string>) {
    forall k :: 0 <= k < |comps| ==> '\n' !in comps[k]
  }

  lemma {:induction false} SplitJoin(text: string)
    ensures Join(Split(text)) == text && SlashFree(Split(text))
  {
    hide Join;
    if text == "" {
      JoinUnfold([""]);
    } else {
      var rest := Split(text[1..]);
      SplitJoin(text[1..]);
      assert text == [text[0]] + text[1..];
      hide Split, SlashFree;
      if text[0] == '/' {
        JoinAfterSlash(rest);
      } else {
        JoinAfterChar(text[0], rest);
      }
    }
  }

  lemma JoinAfterSlash(rest: seq<string>)
    requires rest != [] && SlashFree(rest)
    ensures Join([""] + rest) == "/" + Join(rest) && SlashFree([""] + rest)
  {
    assert ([""] + rest)[1..] == rest;
  }

  lemma JoinAfterChar(c: char, rest: seq<string>)
    requires rest != [] && SlashFree(rest) && c != '/'
    ensures Join([[c] + rest[0]] + rest[1..]) == [c] + Join(rest) && SlashFree([[c] + rest[0]] + rest[1..])
  {
    hide Join;
    var comps := [[c] + rest[0]] + rest[1..];
    JoinUnfold(comps);
    JoinUnfold(rest);
    assert comps[1..] == rest[1..];
  }

  lemma JoinUnfold(comps: seq<string>)
    requires comps != []
    ensures Join(comps) == comps[0] + if |comps| == 1 then "" else "/" + Join(comps[1..])
  {
  }

  /** `comps` with the first `j` characters of its first component consumed. */
  function Advance(comps: seq<string>, j: nat): (r: seq<string>)
    requires comps != [] && j <= |comps[0]|
    ensures |r| == |comps|
  {
    [comps[0][j..]] + comps[1..]
  }

  // ---- The component-level reference ----------------------------------------------------

  /** Whether the glob `p` accepts the rest of a path, given as the unconsumed part of the
      current component followed by the later components. `**` spans any components as it is
      documented to, or, if `dotStops`, as the emitted dot does: none beyond a line feed. */
  ghost predicate Accepts(dotStops: bool, p: string, atStart: bool, comps: seq<string>)
    requires comps != []
    decreases |p|, 0
  {
    if p == "" then comps == [""]
    else if p[0] == '\\' then
      if |p| == 1 then AcceptsChar(dotStops, '\\', "", comps) else AcceptsChar(dotStops, p[1], p[2..], comps)
    else if p[0] == '*' && |p| > 1 && p[1] == '*' then
      if atStart && |p| > 2 && p[2] == '/' then
        // zero or more whole components
        exists k :: 0 <= k < |comps| && (dotStops ==> OneLine(comps[..k]))
          && Accepts(dotStops, p[3..], true, comps[k..])
      else
        // any stretch of the path, across components
        exists k, j :: 0 <= k < |comps| && 0 <= j <= |comps[k]|
          && (dotStops ==> OneLine(comps[..k] + [comps[k][..j]]))
          && Accepts(dotStops, p[2..], false, Advance(comps[k..], j))
    else if p[0] == '*' then
      exists j :: 0 <= j <= |comps[0]| && Accepts(dotStops, p[1..], false, Advance(comps, j))
    else if p[0] == '?' then
      comps[0] != "" && Accepts(dotStops, p[1..], false, Advance(comps, 1))
    else AcceptsChar(dotStops, p[0], p[1..], comps)
  }

  /** `c` taken literally: a slash ends the current component, anything else starts it. */
  ghost predicate AcceptsChar(dotStops: bool, c: char, p: string, comps: seq<string>)
    requires comps != []
    decreases |p|, 1
  {
    if c == '/' then comps[0] == "" && |comps| > 1 && Accepts(dotStops, p, true, comps[1..])
    else comps[0] != "" && comps[0][0] == c && Accepts(dotStops, p, false, Advance(comps, 1))
  }

  /** An anchored glob reads the whole path, any other one its last components. */
  ghost predicate PatternAccepts(dotStops: bool, raw: string, anchored: bool, comps: seq<string>)
    requires comps != []
  {
    if anchored then Accepts(dotStops, raw, true, comps)
    else exists k :: 0 <= k < |comps| && Accepts(dotStops, raw, true, comps[k..])
  }

  // ---- Text positions and component positions -------------------------------------------

  lemma JoinHead(comps: seq<string>)
    requires comps != [] && SlashFree(comps)
    ensures comps[0] != "" ==>
              && Join(comps) != "" && Join(comps)[0] == comps[0][0] != '/'
              && Join(comps)[1..] == Join(Advance(comps, 1)) && SlashFree(Advance(comps, 1))
    ensures comps[0] == "" && |comps| > 1 ==>
              && Join(comps) != "" && Join(comps)[0] == '/' && Join(comps)[1..] == Join(comps[1..])
    ensures comps == [""] <==> Join(comps) == ""
  {
    if comps[0] != "" {
      JoinDrop(comps, 1);
    }
  }

  lemma {:induction false} SplitOfJoin(comps: seq<string>)
    requires comps != [] && SlashFree(comps)
    ensures Split(Join(comps)) == comps
    decreases |comps|, |comps[0]|
  {
    JoinUnfold(comps);
    if comps[0] == "" {
      if |comps| > 1 {
        SplitOfJoin(comps[1..]);
        assert Join(comps)[1..] == Join(comps[1..]);
      }
    } else {
      var shorter := Advance(comps, 1);
      JoinHead(comps);
      SplitOfJoin(shorter);
      assert [comps[0][0]] + shorter[0] == comps[0];
      assert [comps[0]] + shorter[1..] == comps;
    }
  }

  lemma JoinDrop(comps: seq<string>, j: nat)
    requires comps != [] && SlashFree(comps) && j <= |comps[0]|
    ensures j <= |Join(comps)| && Join(comps)[..j] == comps[0][..j]
    ensures Join(comps)[j..] == Join(Advance(comps, j)) && SlashFree(Advance(comps, j))
  {
    hide Join;
    JoinUnfold(comps);
    JoinUnfold(Advance(comps, j));
    assert Advance(comps, j)[1..] == comps[1..];
    assert forall c :: c in comps[0][j..] ==> c in comps[0];
  }

  lemma {:induction false} JoinConcat(a: seq<string>, b: seq<string>)
    requires a != [] && b != []
    ensures Join(a + b) == Join(a) + "/" + Join(b)
  {
    hide Join;
    JoinUnfold(a);
    JoinUnfold(a + b);
    if |a| == 1 {
      assert (a + b)[1..] == b;
    } else {
      assert (a + b)[1..] == a[1..] + b;
      JoinConcat(a[1..], b);
    }
  }

  lemma {:induction false} OneLineJoin(comps: seq<string>)
    ensures '\n' !in Join(comps) <==> OneLine(comps)
  {
    if comps != [] {
      OneLineJoin(comps[1..]);
      assert OneLine(comps) <==> '\n' !in comps[0] && OneLine(comps[1..]) by {
        assert forall k :: 0 < k < |comps| ==> comps[k] == comps[1..][k - 1];
        assert forall k :: 0 <= k < |comps| - 1 ==> comps[1..][k] == comps[k + 1];
      }
    }
  }

  /** The text position reached after `k` components and `j` characters of the next. */
  lemma OffsetOf(comps: seq<string>, k: nat, j: nat) returns (i: nat)
    requires SlashFree(comps) && k < |comps| && j <= |comps[k]|
    ensures i <= |Join(comps)| && Join(comps)[..i] == Join(comps[..k] + [comps[k][..j]])
    ensures Join(comps)[i..] == Join(Advance(comps[k..], j)) && SlashFree(Advance(comps[k..], j))
  {
    hide Join;
    var here := comps[k..];
    JoinDrop(here, j);
    if k == 0 {
      i := j;
      assert here == comps && comps[..0] + [comps[0][..j]] == [comps[0][..j]];
      JoinUnfold([comps[0][..j]]);
    } else {
      var before := comps[..k];
      assert comps == before + here;
      JoinConcat(before, here);
      JoinConcat(before, [comps[k][..j]]);
      JoinUnfold([comps[k][..j]]);
      i := |Join(before)| + 1 + j;
    }
  }

  /** The component position at text position `i`. */
  lemma {:induction false} Locate(comps: seq<string>, i: nat) returns (k: nat, j: nat)
    requires comps != [] && SlashFree(comps) && i <= |Join(comps)|
    ensures k < |comps| && j <= |comps[k]|
    ensures Join(comps)[..i] == Join(comps[..k] + [comps[k][..j]])
    ensures Join(comps)[i..] == Join(Advance(comps[k..], j)) && SlashFree(Advance(comps[k..], j))
    ensures i < |Join(comps)| && Join(comps)[i] == '/' ==> j == |comps[k]| && k + 1 < |comps|
    decreases |comps|
  {
    hide Join;
    JoinUnfold(comps);
    if i <= |comps[0]| {
      k, j := 0, i;
      var o := OffsetOf(comps, 0, i);
      assert |Join(comps[..0] + [comps[0][..i]])| == i by {
        assert comps[..0] + [comps[0][..i]] == [comps[0][..i]];
        JoinUnfold([comps[0][..i]]);
      }
      if i < |comps[0]| {
        assert Join(comps)[i] == comps[0][i];
      }
    } else {
      var rest := comps[1..];
      var skip := |comps[0]| + 1;
      k, j := Locate(rest, i - skip);
      assert rest[k..] == comps[k + 1..] && rest[k] == comps[k + 1];
      assert Join(comps)[i..] == Join(rest)[i - skip..];
      var front := rest[..k] + [rest[k][..j]];
      JoinConcat([comps[0]], front);
      JoinUnfold([comps[0]]);
      assert comps[..k + 1] + [comps[k + 1][..j]] == [comps[0]] + front;
      assert Join(comps)[..i] == comps[0] + "/" + Join(rest)[..i - skip];
      k := k + 1;
    }
  }

  /** A slash of the text separates some first `k` components from the others. */
  lemma LocateSlash(comps: seq<string>, i: nat) returns (k: nat)
    requires comps != [] && SlashFree(comps) && i < |Join(comps)| && Join(comps)[i] == '/'
    ensures 0 < k < |comps|
    ensures Join(comps)[..i] == Join(comps[..k]) && Join(comps)[i + 1..] == Join(comps[k..])
  {
    hide Join;
    var m, j := Locate(comps, i);
    k := m + 1;
    assert comps[m][..j] == comps[m];
    assert comps[..m] + [comps[m][..j]] == comps[..k];
    assert |Join(comps)[..i]| == i;
    JoinConcat(comps[..k], comps[k..]);
    assert comps == comps[..k] + comps[k..];
  }

  lemma SlashAfter(comps: seq<string>, k: nat) returns (i: nat)
    requires 0 < k < |comps|
    ensures i < |Join(comps)| && Join(comps)[i] == '/'
    ensures Join(comps)[..i] == Join(comps[..k]) && Join(comps)[i + 1..] == Join(comps[k..])
  {
    hide Join;
    JoinConcat(comps[..k], comps[k..]);
    assert comps == comps[..k] + comps[k..];
    i := |Join(comps[..k])|;
  }

  // ---- The compiler is correct -----------------------------------------------------------

  /** The emitted pieces accept exactly the paths the glob accepts, whatever the text. */
  lemma {:induction false} TranslationAcceptsAlike(p: string, atStart: bool, comps: seq<string>)
    requires comps != [] && SlashFree(comps)
    ensures Matches(Translate(p, atStart), Join(comps)) <==> Accepts(true, p, atStart, comps)
    decreases |p|, 1
  {
    hide Matches, Translate, Join;
    if p == "" {
      TranslateEmpty(p, atStart);
      JoinHead(comps);
      MatchesUnfold(Translate(p, atStart), Join(comps));
    } else {
      match FirstPart(p, atStart).0
      case Literal(c) => LiteralAlike(p, atStart, comps);
      case OneInComponent => OneAlike(p, atStart, comps);
      case AnyInComponent => StarAlike(p, atStart, comps);
      case Anything => AnythingAlike(p, atStart, comps);
      case Directories => DirectoriesAlike(p, atStart, comps);
    }
  }

  lemma MatchesUnfold(parts: seq<Part>, text: string)
    ensures parts == [] ==> (Matches(parts, text) <==> text == "")
    ensures parts != [] && (parts[0].Literal? || parts[0].OneInComponent?) ==>
              (Matches(parts, text) <==>
                && text != "" && (if parts[0].Literal? then text[0] == parts[0].c else text[0] != '/')
                && Matches(parts[1..], text[1..]))
    ensures parts != [] && parts[0] == AnyInComponent ==>
              (Matches(parts, text) <==>
                exists i :: 0 <= i <= |text| && '/' !in text[..i] && Matches(parts[1..], text[i..]))
    ensures parts != [] && parts[0] == Anything ==>
              (Matches(parts, text) <==>
                exists i :: 0 <= i <= |text| && '\n' !in text[..i] && Matches(parts[1..], text[i..]))
    ensures parts != [] && parts[0] == Directories ==>
              (Matches(parts, text) <==>
                || Matches(parts[1..], text)
                || exists i :: 0 <= i < |text| && text[i] == '/' && '\n' !in text[..i]
                     && Matches(parts[1..], text[i + 1..]))
  {
  }

  lemma TranslateTail(p: string, atStart: bool, text: string)
    requires p != ""
    ensures var (part, n) := FirstPart(p, atStart);
            var parts := Translate(p, atStart);
            parts != [] && parts[0] == part && parts[1..] == Translate(p[n..], p[n - 1] == '/')
  {
    hide FirstPart;
  }

  lemma LiteralAlike(p: string, atStart: bool, comps: seq<string>)
    requires comps != [] && SlashFree(comps) && p != "" && FirstPart(p, atStart).0.Literal?
    ensures Matches(Translate(p, atStart), Join(comps)) <==> Accepts(true, p, atStart, comps)
    decreases |p|, 0
  {
    hide Matches, Translate, Join;
    var (part, n) := FirstPart(p, atStart);
    TranslateTail(p, atStart, Join(comps));
    MatchesUnfold(Translate(p, atStart), Join(comps));
    JoinHead(comps);
    assert Accepts(true, p, atStart, comps) <==> AcceptsChar(true, part.c, p[n..], comps);
    if part.c == '/' {
      if comps[0] == "" && |comps| > 1 {
        TranslationAcceptsAlike(p[n..], true, comps[1..]);
      }
    } else if comps[0] != "" {
      TranslationAcceptsAlike(p[n..], false, Advance(comps, 1));
    }
  }

  lemma OneAlike(p: string, atStart: bool, comps: seq<string>)
    requires comps != [] && SlashFree(comps) && p != "" && FirstPart(p, atStart).0 == OneInComponent
    ensures Matches(Translate(p, atStart), Join(comps)) <==> Accepts(true, p, atStart, comps)
    decreases |p|, 0
  {
    hide Matches, Translate, Join;
    TranslateTail(p, atStart, Join(comps));
    MatchesUnfold(Translate(p, atStart), Join(comps));
    JoinHead(comps);
    if comps[0] != "" {
      TranslationAcceptsAlike(p[1..], false, Advance(comps, 1));
    }
  }

  lemma StarAlike(p: string, atStart: bool, comps: seq<string>)
    requires comps != [] && SlashFree(comps) && p != "" && FirstPart(p, atStart).0 == AnyInComponent
    ensures Matches(Translate(p, atStart), Join(comps)) <==> Accepts(true, p, atStart, comps)
    decreases |p|, 0
  {
    hide Matches, Translate, Join;
    var text, parts := Join(comps), Translate(p, atStart);
    TranslateTail(p, atStart, text);
    MatchesUnfold(parts, text);
    forall j | 0 <= j <= |comps[0]|
      ensures j <= |text| && '/' !in text[..j]
      ensures Matches(parts[1..], text[j..]) <==> Accepts(true, p[1..], false, Advance(comps, j))
    {
      JoinDrop(comps, j);
      assert forall c :: c in comps[0][..j] ==> c in comps[0];
      TranslationAcceptsAlike(p[1..], false, Advance(comps, j));
    }
    forall i | |comps[0]| < i <= |text|
      ensures '/' in text[..i]
    {
      JoinUnfold(comps);
      assert text[|comps[0]|] == '/' && text[..i][|comps[0]|] == '/';
    }
  }

  lemma AnythingAlike(p: string, atStart: bool, comps: seq<string>)
    requires comps != [] && SlashFree(comps) && p != "" && FirstPart(p, atStart).0 == Anything
    ensures Matches(Translate(p, atStart), Join(comps)) <==> Accepts(true, p, atStart, comps)
    decreases |p|, 0
  {
    hide Matches, Translate, Join, OneLine;
    var text, parts := Join(comps), Translate(p, atStart);
    TranslateTail(p, atStart, text);
    MatchesUnfold(parts, text);
    if Matches(parts, text) {
      var i :| 0 <= i <= |text| && '\n' !in text[..i] && Matches(parts[1..], text[i..]);
      var k, j := Locate(comps, i);
      OneLineJoin(comps[..k] + [comps[k][..j]]);
      TranslationAcceptsAlike(p[2..], false, Advance(comps[k..], j));
    }
    if Accepts(true, p, atStart, comps) {
      var k, j :| 0 <= k < |comps| && 0 <= j <= |comps[k]| && OneLine(comps[..k] + [comps[k][..j]])
        && Accepts(true, p[2..], false, Advance(comps[k..], j));
      var i := OffsetOf(comps, k, j);
      OneLineJoin(comps[..k] + [comps[k][..j]]);
      TranslationAcceptsAlike(p[2..], false, Advance(comps[k..], j));
    }
  }

  lemma DirectoriesAlike(p: string, atStart: bool, comps: seq<string>)
    requires comps != [] && SlashFree(comps) && p != "" && FirstPart(p, atStart).0 == Directories
    ensures Matches(Translate(p, atStart), Join(comps)) <==> Accepts(true, p, atStart, comps)
    decreases |p|, 0
  {
    hide Matches, Translate, Join, OneLine;
    var text, parts := Join(comps), Translate(p, atStart);
    TranslateTail(p, atStart, text);
    MatchesUnfold(parts, text);
    assert comps[0..] == comps;
    if Matches(parts, text) {
      if Matches(parts[1..], text) {
        OneLineJoin(comps[..0]);
        JoinEmpty();
        TranslationAcceptsAlike(p[3..], true, comps[0..]);
      } else {
        var i :| 0 <= i < |text| && text[i] == '/' && '\n' !in text[..i] && Matches(parts[1..], text[i + 1..]);
        var k := LocateSlash(comps, i);
        OneLineJoin(comps[..k]);
        TranslationAcceptsAlike(p[3..], true, comps[k..]);
      }
    }
    if Accepts(true, p, atStart, comps) {
      var k :| 0 <= k < |comps| && OneLine(comps[..k]) && Accepts(true, p[3..], true, comps[k..]);
      TranslationAcceptsAlike(p[3..], true, comps[k..]);
      if k > 0 {
        var i := SlashAfter(comps, k);
        OneLineJoin(comps[..k]);
      }
    }
  }

  lemma JoinEmpty()
    ensures Join([]) == ""
  {
  }

  /** For every glob and every path text, the emitted regular expression accepts the text
      exactly when the component-level reference accepts its components. */
  lemma CompiledGlobAcceptsAlike(raw: string, anchored: bool, text: string)
    ensures RegexMatches(anchored, Translate(raw, true), text) <==> PatternAccepts(true, raw, anchored, Split(text))
  {
    hide Matches, Translate, Join, Accepts, Split;
    var parts, comps := Translate(raw, true), Split(text);
    SplitJoin(text);
    if anchored {
      TranslationAcceptsAlike(raw, true, comps);
    } else {
      if RegexMatches(false, parts, text) {
        var i :| 0 <= i <= |text| && (i == 0 || text[i - 1] == '/') && Matches(parts, text[i..]);
        if i == 0 {
          assert comps[0..] == comps && text[0..] == text;
          TranslationAcceptsAlike(raw, true, comps[0..]);
        } else {
          var k := LocateSlash(comps, i - 1);
          TranslationAcceptsAlike(raw, true, comps[k..]);
        }
      }
      if k :| 0 <= k < |comps| && Accepts(true, raw, true, comps[k..]) {
        TranslationAcceptsAlike(raw, true, comps[k..]);
        if k == 0 {
          assert comps[0..] == comps && text[0..] == text;
        } else {
          var i := SlashAfter(comps, k);
          assert Matches(parts, text[i + 1..]) && text[i + 1 - 1] == '/';
        }
      }
    }
  }

  // ---- The documented reading of `**` -------------------------------------------------------

  lemma OneLineParts(comps: seq<string>, k: nat, j: nat)
    requires OneLine(comps) && k < |comps| && j <= |comps[k]|
    ensures OneLine(comps[..k]) && OneLine(comps[k..]) && OneLine(comps[..k] + [comps[k][..j]])
    ensures OneLine(Advance(comps[k..], j))
  {
    assert forall c :: c in comps[k][..j] ==> c in comps[k];
    assert forall c :: c in comps[k][j..] ==> c in comps[k];
  }

  /** Where no component holds a line feed, the dot spans what `**` is documented to span. */
  lemma {:induction false} DotMattersOnlyAcrossLines(p: string, atStart: bool, comps: seq<string>)
    requires comps != [] && OneLine(comps)
    ensures Accepts(true, p, atStart, comps) <==> Accepts(false, p, atStart, comps)
    decreases |p|, 0
  {
    if p == "" {
    } else if p[0] == '\\' {
      if |p| == 1 {
        LiteralAcrossLines('\\', "", comps);
      } else {
        LiteralAcrossLines(p[1], p[2..], comps);
      }
    } else if p[0] == '*' && |p| > 1 && p[1] == '*' {
      if atStart && |p| > 2 && p[2] == '/' {
        forall k | 0 <= k < |comps|
          ensures OneLine(comps[..k])
          ensures Accepts(true, p[3..], true, comps[k..]) <==> Accepts(false, p[3..], true, comps[k..])
        {
          OneLineParts(comps, k, 0);
          DotMattersOnlyAcrossLines(p[3..], true, comps[k..]);
        }
      } else {
        forall k, j | 0 <= k < |comps| && 0 <= j <= |comps[k]|
          ensures OneLine(comps[..k] + [comps[k][..j]])
          ensures Accepts(true, p[2..], false, Advance(comps[k..], j))
                  <==> Accepts(false, p[2..], false, Advance(comps[k..], j))
        {
          OneLineParts(comps, k, j);
          DotMattersOnlyAcrossLines(p[2..], false, Advance(comps[k..], j));
        }
      }
    } else if p[0] == '*' {
      forall j | 0 <= j <= |comps[0]|
        ensures Accepts(true, p[1..], false, Advance(comps, j)) <==> Accepts(false, p[1..], false, Advance(comps, j))
      {
        AdvanceOneLine(comps, j);
        DotMattersOnlyAcrossLines(p[1..], false, Advance(comps, j));
      }
    } else if p[0] == '?' {
      if comps[0] != "" {
        AdvanceOneLine(comps, 1);
        DotMattersOnlyAcrossLines(p[1..], false, Advance(comps, 1));
      }
    } else {
      LiteralAcrossLines(p[0], p[1..], comps);
    }
  }

  lemma AdvanceOneLine(comps: seq<string>, j: nat)
    requires comps != [] && OneLine(comps) && j <= |comps[0]|
    ensures OneLine(Advance(comps, j))
  {
    OneLineParts(comps, 0, j);
    assert comps[0..] == comps;
  }

  lemma LiteralAcrossLines(c: char, p: string, comps: seq<string>)
    requires comps != [] && OneLine(comps)
    ensures AcceptsChar(true, c, p, comps) <==> AcceptsChar(false, c, p, comps)
    decreases |p|, 1
  {
    if c == '/' {
      if |comps| > 1 {
        OneLineParts(comps, 1, 0);
        DotMattersOnlyAcrossLines(p, true, comps[1..]);
      }
    } else if comps[0] != "" {
      AdvanceOneLine(comps, 1);
      DotMattersOnlyAcrossLines(p, false, Advance(comps, 1));
    }
  }

  /** Every emitted expression means what its glob is documented to mean on exactly the path texts
      without a line feed. */
  lemma DocumentedOnOneLineExactly(text: string)
    ensures (forall raw, anchored ::
               RegexMatches(anchored, Translate(raw, true), text)
               <==> PatternAccepts(false, raw, anchored, Split(text)))
            <==> '\n' !in text
  {
    hide Split, RegexMatches;
    SplitJoin(text);
    OneLineJoin(Split(text));
    if '\n' !in text {
      forall raw, anchored
        ensures RegexMatches(anchored, Translate(raw, true), text)
                <==> PatternAccepts(false, raw, anchored, Split(text))
      {
        CompiledGlobAcceptsAlike(raw, anchored, text);
        PatternAcrossLines(raw, anchored, Split(text));
      }
    } else {
      EverythingStopsAtALine(text);
    }
  }

  lemma PatternAcrossLines(raw: string, anchored: bool, comps: seq<string>)
    requires comps != [] && OneLine(comps)
    ensures PatternAccepts(true, raw, anchored, comps) <==> PatternAccepts(false, raw, anchored, comps)
  {
    hide Accepts;
    if anchored {
      DotMattersOnlyAcrossLines(raw, true, comps);
    } else {
      forall k | 0 <= k < |comps|
        ensures Accepts(true, raw, true, comps[k..]) <==> Accepts(false, raw, true, comps[k..])
      {
        OneLineParts(comps, k, 0);
        DotMattersOnlyAcrossLines(raw, true, comps[k..]);
      }
    }
  }

  /** The anchored glob `**` is documented to accept every path, and does not accept this one. */
  lemma EverythingStopsAtALine(text: string)
    requires '\n' in text
    ensures PatternAccepts(false, "**", true, Split(text))
    ensures !RegexMatches(true, Translate("**", true), text)
  {
    var comps := Split(text);
    var k := |comps| - 1;
    var j := |comps[k]|;
    assert comps[k..] == [comps[k]] && comps[k][j..] == "";
    assert Advance(comps[k..], j) == [""];
    assert Accepts(false, "**"[2..], false, Advance(comps[k..], j));
    assert Translate("**", true) == [Anything];
    forall i | 0 <= i <= |text| && text[i..] == ""
      ensures '\n' in text[..i]
    {
      assert text[..i] == text;
    }
    MatchesUnfold([Anything], text);
  }

  /** The documented reading fails at the anchored glob of all files `x` and a file `x` in a
      directory whose name holds a line feed. */
  lemma LineFeedHidesAFile()
    ensures Split("a\nb/x") == ["a\nb", "x"]
    ensures PatternAccepts(false, "**/x", true, Split("a\nb/x"))
    ensures !RegexMatches(true, Translate("**/x", true), "a\nb/x")
  {
    FileBelowALineFeed();
    var comps := ["a\nb", "x"];
    assert comps[1..] == ["x"] && "**/x"[3..] == "x";
    assert Accepts(false, "**/x"[3..], true, comps[1..]) by {
      assert "x"[1..] == "" && Advance(["x"], 1) == [""];
      assert Accepts(false, "", false, Advance(["x"], 1));
    }
    DirectoriesStopAtALine();
  }

  lemma FileBelowALineFeed()
    ensures Split("a\nb/x") == ["a\nb", "x"]
  {
    var comps := ["a\nb", "x"];
    assert comps[1..] == ["x"] && Join(["x"]) == "x";
    assert Join(comps) == "a\nb/x";
    SplitOfJoin(comps);
  }

  lemma DirectoriesStopAtALine()
    ensures !RegexMatches(true, Translate("**/x", true), "a\nb/x")
  {
    hide Matches, Translate;
    var text, parts := "a\nb/x", [Directories, Literal('x')];
    AllFilesNamedX();
    MatchesUnfold(parts, text);
    assert parts[1..] == [Literal('x')];
    MatchesUnfold(parts[1..], text);
    forall i | 0 <= i < |text| && text[i] == '/'
      ensures '\n' in text[..i]
    {
      assert text[..i][1] == '\n';
    }
  }

  lemma AllFilesNamedX()
    ensures Translate("**/x", true) == [Directories, Literal('x')]
  {
    hide Translate;
    var glob := "**/x";
    assert FirstPart(glob, true) == (Directories, 3);
    TranslateUnfold(glob, true);
    var tail := glob[3..];
    assert |tail| == 1 && tail[0] == 'x';
    assert FirstPart(tail, true) == (Literal('x'), 1);
    TranslateUnfold(tail, true);
    TranslateEmpty(tail[1..], false);
  }

  // ---- Globs for one name -----------------------------------------------------------------

  /** The plain wildcard matcher on one name: `*` any stretch, `?` one character, a backslash
      takes the next character literally. */
  ghost predicate NameMatches(p: string, name: string)
    decreases |p|
  {
    if p == "" then name == ""
    else if p[0] == '*' then exists j :: 0 <= j <= |name| && NameMatches(p[1..], name[j..])
    else if name == "" then false
    else if p[0] == '?' then NameMatches(p[1..], name[1..])
    else if p[0] == '\\' && |p| > 1 then name[0] == p[1] && NameMatches(p[2..], name[1..])
    else name[0] == p[0] && NameMatches(p[1..], name[1..])
  }

  predicate HasDoubleStar(p: string) {
    exists i :: 0 <= i < |p| - 1 && p[i] == '*' && p[i + 1] == '*'
  }

  lemma {:induction false} NameGlobStaysInComponent(p: string, atStart: bool, comps: seq<string>)
    requires comps != [] && '/' !in p && !HasDoubleStar(p)
    ensures Accepts(true, p, atStart, comps) <==> |comps| == 1 && NameMatches(p, comps[0])
    decreases |p|
  {
    if p != "" {
      var n := if p[0] == '\\' && |p| > 1 then 2 else 1;
      var rest := p[n..];
      assert forall i :: 0 <= i < |rest| ==> rest[i] == p[i + n];
      if p[0] == '*' {
        forall j | 0 <= j <= |comps[0]|
          ensures Accepts(true, rest, false, Advance(comps, j)) <==> |comps| == 1 && NameMatches(rest, comps[0][j..])
        {
          NameGlobStaysInComponent(rest, false, Advance(comps, j));
        }
      } else if comps[0] != "" {
        NameGlobStaysInComponent(rest, false, Advance(comps, 1));
      }
    }
  }

  /** A slash-free glob without `**` accepts a path exactly when it matches the path's final
      component, at any depth. */
  lemma NameGlobMatchesFinalComponent(raw: string, text: string)
    requires '/' !in raw && !HasDoubleStar(raw)
    ensures RegexMatches(false, Translate(raw, true), text) <==>
            NameMatches(raw, Split(text)[|Split(text)| - 1])
  {
    hide Matches, Translate, Accepts, RegexMatches, NameMatches, Split;
    var comps := Split(text);
    CompiledGlobAcceptsAlike(raw, false, text);
    forall k | 0 <= k < |comps|
      ensures Accepts(true, raw, true, comps[k..]) <==> k == |comps| - 1 && NameMatches(raw, comps[k])
    {
      NameGlobStaysInComponent(raw, true, comps[k..]);
    }
  }
}
