/** `redact_paths` and `safe_text`: hide local paths, drop terminal sequences, escape the rest.
    `CharClasses` stands for the Unicode classes of the regular expressions. */
module SafeText {
  import opened Substrings

  datatype CharClasses = CharClasses(word: char -> bool, space: char -> bool) {
    /** The laws used: neither a slash nor an escape character is white space, and control
        characters are not word characters. */
    ghost predicate Valid() {
      !space('/') && !space(ESC) && forall c: char :: word(c) ==> c as int >= 32 && c as int != 127
    }
  }

  const ESC: char := 0x1B as char

  /** A position's left neighbour; `Edge` at the start of the text. */
  datatype Left = Edge | Char(c: char)

  const PATH_MARK := "<path>"

  // ------------------------------------------------------ the path pattern

  /** Ends the run after a slash: `[^;\n\r,)]` does not match it. */
  predicate Stop(c: char) { c in {';', '\n', '\r', ',', ')'} }

  predicate Blocks(classes: CharClasses, left: Left) { left.Char? && (left.c == '>' || classes.word(left.c)) }

  /** `(?<![>\w])/(?!\s)(?:[^;\n\r,)]+)` matches at the start of `s`. */
  predicate StartsPath(classes: CharClasses, left: Left, s: string) {
    && |s| >= 2 && s[0] == '/' && !Blocks(classes, left)
    && !classes.space(s[1]) && !Stop(s[1])
  }

  /** Length of the longest start of `s` without a stop. */
  function RunLength(s: string): (n: nat)
    ensures n <= |s|
    ensures forall i :: 0 <= i < n ==> !Stop(s[i])
    ensures n < |s| ==> Stop(s[n])
  {
    if s == "" || Stop(s[0]) then 0 else 1 + RunLength(s[1..])
  }

  /** `ABSOLUTE_POSIX_PATH.sub("<path>", …)`. */
  function Scan(classes: CharClasses, left: Left, s: string): string
    decreases |s|
  {
    if s == "" then ""
    else if StartsPath(classes, left, s) then
      var n := RunLength(s);
      PATH_MARK + Scan(classes, Char(s[n - 1]), s[n..])
    else [s[0]] + Scan(classes, Char(s[0]), s[1..])
  }

  function LeftOf(s: string, i: nat): Left
    requires i <= |s|
  {
    if i == 0 then Edge else Char(s[i - 1])
  }

  /** The pattern matches at position `i` of the text. */
  predicate MatchAt(classes: CharClasses, s: string, i: nat)
    requires i <= |s|
  {
    StartsPath(classes, LeftOf(s, i), s[i..])
  }

  lemma {:induction false} ScanFrom(classes: CharClasses, s: string, i: nat)
    requires i <= |s|
    ensures Scan(classes, LeftOf(s, i), s[i..]) == s[i..] <==>
            forall j :: i <= j <= |s| ==> !MatchAt(classes, s, j)
    decreases |s| - i
  {
    if i < |s| {
      if MatchAt(classes, s, i) {
        assert Scan(classes, LeftOf(s, i), s[i..])[0] == '<' && s[i..][0] == '/';
      } else {
        ScanFrom(classes, s, i + 1);
        assert s[i..][1..] == s[i + 1..];
        assert Scan(classes, LeftOf(s, i), s[i..]) == [s[i]] + Scan(classes, LeftOf(s, i + 1), s[i + 1..]);
        assert s[i..] == [s[i]] + s[i + 1..];
      }
    }
  }

  /** A scan leaves a text as it is exactly when the pattern matches nowhere in it. */
  lemma UnchangedIffNoMatch(classes: CharClasses, s: string)
    ensures Scan(classes, Edge, s) == s <==> forall i :: 0 <= i <= |s| ==> !MatchAt(classes, s, i)
  {
    ScanFrom(classes, s, 0);
    assert s[0..] == s;
  }

  /** No slash of `s` can start a match: each follows a word character or a `>`. */
  predicate Glued(classes: CharClasses, left: Left, s: string)
    decreases |s|
  {
    s == "" || ((s[0] == '/' ==> Blocks(classes, left)) && Glued(classes, Char(s[0]), s[1..]))
  }

  function LastOf(left: Left, s: string): Left { if s == "" then left else Char(s[|s| - 1]) }

  lemma {:induction false} ScanKept(classes: CharClasses, left: Left, s: string, rest: string)
    requires Glued(classes, left, s)
    ensures Scan(classes, left, s + rest) == s + Scan(classes, LastOf(left, s), rest)
    decreases |s|
  {
    if s == "" {
      assert s + rest == rest && "" + Scan(classes, left, rest) == Scan(classes, left, rest);
    } else {
      assert (s + rest)[1..] == s[1..] + rest;
      ScanKept(classes, Char(s[0]), s[1..], rest);
      assert LastOf(Char(s[0]), s[1..]) == LastOf(left, s);
    }
  }

  predicate NoSlash(s: string) { forall c <- s :: c != '/' }

  /** `<repo>`, `<home>` and `<path>` hold no slash and end with the bracket that keeps a
      slash after them from starting a match. */
  predicate IsMark(mark: string) { mark != "" && mark[|mark| - 1] == '>' && NoSlash(mark) }

  lemma {:induction false} NoSlashIsGlued(classes: CharClasses, left: Left, s: string)
    requires forall c <- s :: c != '/'
    ensures Glued(classes, left, s)
    decreases |s|
  {
    if s != "" {
      assert s[0] in s;
      assert forall c <- s[1..] :: c in s;
      NoSlashIsGlued(classes, Char(s[0]), s[1..]);
    }
  }

  lemma ScanMark(classes: CharClasses, left: Left, mark: string, rest: string)
    requires IsMark(mark)
    ensures Scan(classes, left, mark + rest) == mark + Scan(classes, Char('>'), rest)
  {
    NoSlashIsGlued(classes, left, mark);
    ScanKept(classes, left, mark, rest);
  }

  predicate GluedAt(classes: CharClasses, left: Left, s: string, i: nat)
    requires i < |s|
  {
    s[i] == '/' ==> Blocks(classes, if i == 0 then left else Char(s[i - 1]))
  }

  lemma {:induction false} GluedEverywhere(classes: CharClasses, left: Left, s: string)
    requires forall i: nat :: i < |s| ==> GluedAt(classes, left, s, i)
    ensures Glued(classes, left, s)
    decreases |s|
  {
    if s != "" {
      assert GluedAt(classes, left, s, 0);
      forall i: nat | i < |s[1..]| ensures GluedAt(classes, Char(s[0]), s[1..], i) {
        assert GluedAt(classes, left, s, i + 1);
      }
      GluedEverywhere(classes, Char(s[0]), s[1..]);
    }
  }

  /** What follows a mark is kept up to the first slash that does not follow a word
      character or a `>`. */
  lemma SuffixOfMarkKept(classes: CharClasses, left: Left, mark: string, suffix: string, rest: string)
    requires IsMark(mark) && Glued(classes, Char('>'), suffix)
    ensures Scan(classes, left, mark + (suffix + rest))
            == mark + (suffix + Scan(classes, LastOf(Char('>'), suffix), rest))
  {
    ScanMark(classes, left, mark, suffix + rest);
    ScanKept(classes, Char('>'), suffix, rest);
  }

  lemma MarksAreMarks()
    ensures IsMark("<repo>") && IsMark("<home>") && IsMark(PATH_MARK)
  {
  }

  lemma StopIsKept(classes: CharClasses, left: Left, s: string)
    requires s == "" || Stop(s[0])
    ensures Scan(classes, left, s) == if s == "" then "" else [s[0]] + Scan(classes, Char(s[0]), s[1..])
  {
  }

  /** Scanning what was scanned changes nothing. */
  lemma {:induction false} ScanTwice(classes: CharClasses, left: Left, again: Left, s: string)
    requires classes.Valid() && Blocks(classes, left) == Blocks(classes, again)
    ensures Scan(classes, again, Scan(classes, left, s)) == Scan(classes, left, s)
    decreases |s|
  {
    if s == "" {
    } else if StartsPath(classes, left, s) {
      var n := RunLength(s);
      var tail := s[n..];
      var rest := Scan(classes, Char(s[n - 1]), tail);
      StopIsKept(classes, Char(s[n - 1]), tail);
      if tail != "" {
        ScanTwice(classes, Char(tail[0]), Char(tail[0]), tail[1..]);
        StopIsKept(classes, Char('>'), rest);
        assert rest[1..] == Scan(classes, Char(tail[0]), tail[1..]);
      }
      assert Scan(classes, Char('>'), rest) == rest;
      MarksAreMarks();
      ScanMark(classes, again, PATH_MARK, rest);
    } else {
      var rest := Scan(classes, Char(s[0]), s[1..]);
      ScanTwice(classes, Char(s[0]), Char(s[0]), s[1..]);
      var out := [s[0]] + rest;
      assert out[1..] == rest;
      if s[0] == '/' && !Blocks(classes, left) && |s| >= 2 {
        assert s[1] != '/' && rest[0] == s[1];
      }
      assert !StartsPath(classes, again, out);
    }
  }

  /** The redacted text shows no further match of the pattern, and a second scan of it
      changes nothing. */
  lemma ScanIsFixpoint(classes: CharClasses, s: string)
    requires classes.Valid()
    ensures var out := Scan(classes, Edge, s);
            Scan(classes, Edge, out) == out && forall i :: 0 <= i <= |out| ==> !MatchAt(classes, out, i)
  {
    ScanTwice(classes, Edge, Edge, s);
    UnchangedIffNoMatch(classes, Scan(classes, Edge, s));
  }

  /** The scan as a list of pieces, kept or replaced. */
  datatype Piece = Kept(text: string) | Replaced(text: string)

  function Pieces(classes: CharClasses, left: Left, s: string): seq<Piece>
    decreases |s|
  {
    if s == "" then []
    else if StartsPath(classes, left, s) then
      var n := RunLength(s);
      [Replaced(s[..n])] + Pieces(classes, Char(s[n - 1]), s[n..])
    else [Kept([s[0]])] + Pieces(classes, Char(s[0]), s[1..])
  }

  function Before(pieces: seq<Piece>): string {
    if pieces == [] then "" else pieces[0].text + Before(pieces[1..])
  }

  function Rendered(pieces: seq<Piece>): string {
    if pieces == [] then ""
    else (if pieces[0].Kept? then pieces[0].text else PATH_MARK) + Rendered(pieces[1..])
  }

  /** A whole run from a slash up to a stop. */
  predicate IsPathRun(classes: CharClasses, text: string) {
    |text| >= 2 && text[0] == '/' && !classes.space(text[1]) && forall c <- text :: !Stop(c)
  }

  predicate OnlyPathsReplaced(classes: CharClasses, pieces: seq<Piece>) {
    forall p <- pieces :: p.Replaced? ==> IsPathRun(classes, p.text)
  }

  lemma OnePieceMore(classes: CharClasses, first: Piece, rest: seq<Piece>)
    ensures Before([first] + rest) == first.text + Before(rest)
    ensures Rendered([first] + rest) == (if first.Kept? then first.text else PATH_MARK) + Rendered(rest)
    ensures OnlyPathsReplaced(classes, rest) && (first.Replaced? ==> IsPathRun(classes, first.text)) ==>
              OnlyPathsReplaced(classes, [first] + rest)
  {
    hide IsPathRun;
    assert ([first] + rest)[1..] == rest;
  }

  lemma ReplacedRun(classes: CharClasses, left: Left, s: string)
    requires StartsPath(classes, left, s)
    ensures IsPathRun(classes, s[..RunLength(s)])
  {
    var n := RunLength(s);
    assert n >= 2;
    assert s[..n][0] == s[0] && s[..n][1] == s[1];
  }

  /** The pieces are the text in order; the result keeps every kept piece in place and
      shows one mark for each replaced one; a replaced piece is a whole run from a slash. */
  lemma {:induction false} ScanKeepsTheRest(classes: CharClasses, left: Left, s: string)
    ensures Before(Pieces(classes, left, s)) == s
    ensures Rendered(Pieces(classes, left, s)) == Scan(classes, left, s)
    ensures OnlyPathsReplaced(classes, Pieces(classes, left, s))
    decreases |s|
  {
    hide StartsPath, RunLength, IsPathRun, OnlyPathsReplaced, Before, Rendered;
    if s == "" {
      NoPieces(classes);
    } else if StartsPath(classes, left, s) {
      ReplacedRun(classes, left, s);
      var n := RunLength(s);
      ScanKeepsTheRest(classes, Char(s[n - 1]), s[n..]);
      OnePieceMore(classes, Replaced(s[..n]), Pieces(classes, Char(s[n - 1]), s[n..]));
      assert s == s[..n] + s[n..];
    } else {
      ScanKeepsTheRest(classes, Char(s[0]), s[1..]);
      OnePieceMore(classes, Kept([s[0]]), Pieces(classes, Char(s[0]), s[1..]));
      assert s == [s[0]] + s[1..];
    }
  }

  lemma NoPieces(classes: CharClasses)
    ensures Before([]) == "" && Rendered([]) == "" && OnlyPathsReplaced(classes, [])
  {
  }

  /** `str.replace` with a non-empty source. */
  function Replace(s: string, source: string, replacement: string): string
    requires source != ""
    decreases |s|
  {
    if s == "" then ""
    else if source <= s then replacement + Replace(s[|source|..], source, replacement)
    else [s[0]] + Replace(s[1..], source, replacement)
  }

  function RedactPaths(classes: CharClasses, repo: string, home: string, value: string): string {
    var a := if repo == "" then value else Replace(value, repo, "<repo>");
    var b := if home == "" then a else Replace(a, home, "<home>");
    Scan(classes, Edge, b)
  }

  /** A path is hidden up to the first of `;`, a line end, `,` and `)`, unless a word
      character or a `>` stands before it or white space after its slash. */
  lemma PathIsHidden(classes: CharClasses, left: Left, path: string, rest: string)
    requires left.Edge? || (left.c != '>' && !classes.word(left.c))
    requires |path| >= 2 && path[0] == '/' && !classes.space(path[1])
    requires forall c <- path :: c !in {';', '\n', '\r', ',', ')'}
    requires rest == "" || rest[0] in {';', '\n', '\r', ',', ')'}
    ensures Scan(classes, left, path + rest) == "<path>" + Scan(classes, Char(path[|path| - 1]), rest)
  {
    var s := path + rest;
    assert path[1] in path;
    RunIs(path, rest);
    assert s[|path|..] == rest && s[|path| - 1] == path[|path| - 1];
  }

  lemma {:induction false} RunIs(path: string, rest: string)
    requires forall c <- path :: !Stop(c)
    requires rest == "" || Stop(rest[0])
    ensures RunLength(path + rest) == |path|
  {
    if path == "" {
      assert path + rest == rest;
    } else {
      assert path[0] in path && forall c <- path[1..] :: c in path;
      assert (path + rest)[1..] == path[1..] + rest;
      RunIs(path[1..], rest);
    }
  }

  /** The first occurrence of the source is replaced, and then those after its end. */
  lemma {:induction false} ReplaceAt(before: string, source: string, after: string, mark: string)
    requires source != "" && forall i: nat :: i < |before| ==> !ContainsAt(source, before + source + after, i)
    ensures Replace(before + source + after, source, mark) == before + mark + Replace(after, source, mark)
    decreases |before|
  {
    var s := before + source + after;
    if before == "" {
      assert s == source + after && s[|source|..] == after;
      assert "" + mark == mark;
    } else {
      assert s[0..] == s && !ContainsAt(source, s, 0);
      var rest := before[1..] + source + after;
      assert s[1..] == rest;
      forall i: nat | i < |before[1..]| ensures !ContainsAt(source, rest, i) {
        assert rest[i..] == s[i + 1..];
        assert !ContainsAt(source, s, i + 1);
      }
      ReplaceAt(before[1..], source, after, mark);
      var last := Replace(after, source, mark);
      assert [before[0]] + (before[1..] + mark + last) == before + mark + last;
    }
  }

  /** A path below the repository is shown as one below `<repo>`. */
  lemma RepoIsNamed(classes: CharClasses, repo: string, home: string, before: string, after: string)
    requires repo != "" && forall i: nat :: i < |before| ==> !ContainsAt(repo, before + repo + after, i)
    requires !Contains(repo, after) && !Contains(home, before + "<repo>" + after)
    requires Glued(classes, Edge, before + "<repo>" + after)
    ensures RedactPaths(classes, repo, home, before + repo + after) == before + "<repo>" + after
  {
    hide Glued, Contains, Replace, Scan;
    ReplaceAt(before, repo, after, "<repo>");
    ReplaceAbsent(after, repo, "<repo>");
    ReplaceAbsent(before + "<repo>" + after, home, "<home>");
    ScanAll(classes, before + "<repo>" + after);
  }

  /** A path below the home directory is shown as one below `<home>`. */
  lemma HomeIsNamed(classes: CharClasses, repo: string, home: string, before: string, after: string)
    requires home != "" && forall i: nat :: i < |before| ==> !ContainsAt(home, before + home + after, i)
    requires !Contains(home, after) && !Contains(repo, before + home + after)
    requires Glued(classes, Edge, before + "<home>" + after)
    ensures RedactPaths(classes, repo, home, before + home + after) == before + "<home>" + after
  {
    hide Glued, Contains, Replace, Scan;
    ReplaceAbsent(before + home + after, repo, "<repo>");
    ReplaceAt(before, home, after, "<home>");
    ReplaceAbsent(after, home, "<home>");
    ScanAll(classes, before + "<home>" + after);
  }

  // ------------------------------------------------------- the two roots

  /** The text of an absolute path that cannot spell a mark. */
  predicate IsRoot(root: string) { root != "" && root[0] == '/' && '<' !in root }

  /** A mark that opens with its bracket. */
  predicate Bracketed(mark: string) { IsMark(mark) && mark[0] == '<' }

  lemma NotInSuffix(x: string, s: string, n: nat)
    requires n <= |s| && !Contains(x, s)
    ensures !Contains(x, s[n..])
  {
    forall i: nat | i <= |s[n..]| ensures !ContainsAt(x, s[n..], i) {
      assert s[n..][i..] == s[n + i..];
      assert !ContainsAt(x, s, n + i);
    }
  }

  /** A root does not begin where there is no slash. */
  lemma AfterNoSlash(x: string, s: string, t: string)
    requires x != "" && x[0] == '/' && NoSlash(s)
    ensures Contains(x, s + t) <==> Contains(x, t)
  {
    forall i: nat | i <= |t| ensures ContainsAt(x, s + t, |s| + i) <==> ContainsAt(x, t, i) {
      assert (s + t)[|s| + i..] == t[i..];
    }
    forall i: nat | i < |s| ensures !ContainsAt(x, s + t, i) {
      assert s[i] in s;
      assert (s + t)[i..][0] == s[i];
    }
    assert forall i: nat :: |s| <= i <= |s + t| && ContainsAt(x, s + t, i) ==> ContainsAt(x, t, i - |s|);
  }

  lemma AfterChar(x: string, c: char, t: string)
    ensures Contains(x, [c] + t) <==> x <= [c] + t || Contains(x, t)
  {
    forall i: nat | i <= |t| ensures ContainsAt(x, [c] + t, i + 1) <==> ContainsAt(x, t, i) {
      assert ([c] + t)[i + 1..] == t[i..];
    }
    assert ([c] + t)[0..] == [c] + t;
    assert ContainsAt(x, [c] + t, 0) <==> x <= [c] + t;
    assert forall i: nat :: 1 <= i <= |[c] + t| && ContainsAt(x, [c] + t, i) ==> ContainsAt(x, t, i - 1);
  }

  lemma PrefixIsContained(x: string, s: string)
    requires x <= s
    ensures Contains(x, s)
  {
    assert s[0..] == s;
    assert ContainsAt(x, s, 0);
  }

  lemma EmptyHasNoRoot(x: string)
    requires x != ""
    ensures !Contains(x, "")
  {
  }

  lemma FirstOfReplace(s: string, source: string, mark: string)
    requires s != "" && source != "" && Bracketed(mark)
    ensures var t := Replace(s, source, mark); t != "" && (t[0] == '<' || !(source <= s))
  {
  }

  lemma {:induction false} PrefixKeptByReplace(x: string, s: string, source: string, mark: string)
    requires source != "" && Bracketed(mark) && '<' !in x && x <= Replace(s, source, mark)
    ensures x <= s
    decreases |s|
  {
    if x != "" && s != "" {
      FirstOfReplace(s, source, mark);
      assert x[0] in x && x[0] == Replace(s, source, mark)[0];
      PrefixKeptByReplace(x[1..], s[1..], source, mark);
      assert x == [x[0]] + x[1..] && s == [s[0]] + s[1..];
    }
  }

  lemma {:induction false} ReplaceAddsNoRoot(x: string, s: string, source: string, mark: string)
    requires IsRoot(x) && source != "" && Bracketed(mark)
    requires !Contains(x, s) || x == source
    ensures !Contains(x, Replace(s, source, mark))
    decreases |s|
  {
    hide Contains, NoSlash;
    if s == "" {
      EmptyHasNoRoot(x);
    } else if source <= s {
      var rest := s[|source|..];
      if x != source {
        NotInSuffix(x, s, |source|);
      }
      ReplaceAddsNoRoot(x, rest, source, mark);
      AfterNoSlash(x, mark, Replace(rest, source, mark));
    } else {
      if x != source {
        NotInSuffix(x, s, 1);
      }
      ReplaceAddsNoRoot(x, s[1..], source, mark);
      if x <= Replace(s, source, mark) {
        PrefixKeptByReplace(x, s, source, mark);
        PrefixIsContained(x, s);
      }
      AfterChar(x, s[0], Replace(s[1..], source, mark));
    }
  }

  lemma FirstOfScan(classes: CharClasses, left: Left, s: string)
    requires s != ""
    ensures var t := Scan(classes, left, s); t != "" && (t[0] == '<' || !StartsPath(classes, left, s))
  {
  }

  lemma {:induction false} PrefixKeptByScan(classes: CharClasses, left: Left, x: string, s: string)
    requires '<' !in x && x <= Scan(classes, left, s)
    ensures x <= s
    decreases |s|
  {
    hide StartsPath;
    if x != "" && s != "" {
      FirstOfScan(classes, left, s);
      assert x[0] in x && x[0] == Scan(classes, left, s)[0];
      PrefixKeptByScan(classes, Char(s[0]), x[1..], s[1..]);
      assert x == [x[0]] + x[1..] && s == [s[0]] + s[1..];
    }
  }

  lemma {:induction false} ScanAddsNoRoot(classes: CharClasses, left: Left, x: string, s: string)
    requires IsRoot(x) && !Contains(x, s)
    ensures !Contains(x, Scan(classes, left, s))
    decreases |s|
  {
    hide Contains, StartsPath, RunLength;
    if s == "" {
      EmptyHasNoRoot(x);
    } else if StartsPath(classes, left, s) {
      ReplacedRun(classes, left, s);
      var n := RunLength(s);
      NotInSuffix(x, s, n);
      ScanAddsNoRoot(classes, Char(s[n - 1]), x, s[n..]);
      MarksAreMarks();
      AfterNoSlash(x, PATH_MARK, Scan(classes, Char(s[n - 1]), s[n..]));
    } else {
      NotInSuffix(x, s, 1);
      ScanAddsNoRoot(classes, Char(s[0]), x, s[1..]);
      if x <= Scan(classes, left, s) {
        PrefixKeptByScan(classes, left, x, s);
        PrefixIsContained(x, s);
      }
      AfterChar(x, s[0], Scan(classes, Char(s[0]), s[1..]));
    }
  }

  /** The redacted text names neither the repository nor the home directory. */
  lemma RedactedHidesRoots(classes: CharClasses, repo: string, home: string, value: string)
    requires IsRoot(repo) && IsRoot(home)
    ensures !Contains(repo, RedactPaths(classes, repo, home, value))
    ensures !Contains(home, RedactPaths(classes, repo, home, value))
  {
    MarksAreMarks();
    assert Bracketed("<repo>") && Bracketed("<home>");
    hide Contains, Replace, Scan, Bracketed, IsRoot;
    var a := Replace(value, repo, "<repo>");
    var b := Replace(a, home, "<home>");
    ReplaceAddsNoRoot(repo, value, repo, "<repo>");
    ReplaceAddsNoRoot(repo, a, home, "<home>");
    ReplaceAddsNoRoot(home, a, home, "<home>");
    NotEmpty(repo);
    NotEmpty(home);
    ScanAddsNoRoot(classes, Edge, repo, b);
    ScanAddsNoRoot(classes, Edge, home, b);
  }

  lemma NotEmpty(root: string)
    requires IsRoot(root)
    ensures root != ""
  {
  }

  lemma MarkIsReplaced(root: string)
    requires root == "/<repo>"
    ensures Replace("a//<repo>", root, "<repo>") == "a/<repo>"
  {
    var value := "a//<repo>";
    assert value[1..] == "//<repo>" && value[1..][1..] == root && root[|root|..] == "";
    assert root[1] == '<' && value[1..][1] == '/' && value[0] == 'a' && root[0] == '/';
    assert Replace(root, root, "<repo>") == "<repo>" + Replace("", root, "<repo>") == "<repo>";
    assert Replace(value[1..], root, "<repo>") == "/" + "<repo>";
  }

  lemma MarkIsGlued(classes: CharClasses)
    requires classes.word('a')
    ensures Glued(classes, Edge, "a/<repo>")
  {
    var out := "a/<repo>";
    assert out[0] == 'a' && out[1..] == "/<repo>" && "/<repo>"[1..] == "<repo>" && "/<repo>"[0] == '/';
    MarksAreMarks();
    NoSlashIsGlued(classes, Char('/'), "<repo>");
  }

  /** A root that spells a mark can come back: `/<repo>` does from the text `a//<repo>`. */
  lemma MarkInRootComesBack(classes: CharClasses, home: string)
    requires classes.word('a') && !Contains(home, "a/<repo>")
    ensures Contains("/<repo>", RedactPaths(classes, "/<repo>", home, "a//<repo>"))
  {
    var root := "/<repo>";
    var out := "a/<repo>";
    assert out[1..] == root;
    assert ContainsAt(root, out, 1);
    hide Replace, Scan, Glued, Contains;
    MarkIsReplaced(root);
    ReplaceAbsent(out, home, "<home>");
    MarkIsGlued(classes);
    ScanAll(classes, out);
  }

  lemma ScanAll(classes: CharClasses, s: string)
    requires Glued(classes, Edge, s)
    ensures Scan(classes, Edge, s) == s
  {
    ScanKept(classes, Edge, s, "");
    assert s + "" == s && Scan(classes, LastOf(Edge, s), "") == "";
  }

  /** A text without the source is not changed by a replacement. */
  lemma {:induction false} ReplaceAbsent(s: string, source: string, mark: string)
    requires !Contains(source, s)
    ensures source != "" && Replace(s, source, mark) == s
    decreases |s|
  {
    assert source == "" ==> ContainsAt(source, s, 0);
    if s != "" {
      if source <= s {
        PrefixIsContained(source, s);
      }
      NotInSuffix(source, s, 1);
      hide Contains;
      ReplaceAbsent(s[1..], source, mark);
    }
  }

  // ------------------------------------------------------ terminal sequences

  function SkipRange(s: string, i: nat, low: char, high: char): (j: nat)
    requires i <= |s|
    ensures i <= j <= |s|
    decreases |s| - i
  {
    if i < |s| && low <= s[i] <= high then SkipRange(s, i + 1, low, high) else i
  }

  /** Length of the ANSI sequence `s` starts with, 0 if there is none. */
  function AnsiLength(s: string): (n: nat)
    ensures n <= |s|
  {
    if |s| < 2 || s[0] != ESC || s[1] != '[' then 0
    else
      var final := SkipRange(s, SkipRange(s, 2, '0', '?'), ' ', '/');
      if final < |s| && '@' <= s[final] <= '~' then final + 1 else 0
  }

  function AnsiStrip(s: string): string
    decreases |s|
  {
    if s == "" then ""
    else if AnsiLength(s) > 0 then AnsiStrip(s[AnsiLength(s)..])
    else [s[0]] + AnsiStrip(s[1..])
  }

  /** `s` starts with a terminal sequence of `n` characters: ESC and a bracket, then parameters
      up to `p`, then intermediates, then one final character. */
  predicate SequenceOf(s: string, p: nat, n: nat) {
    && 2 <= p < n <= |s| && s[0] == '\U{001B}' && s[1] == '['
    && (forall i :: 2 <= i < p ==> '0' <= s[i] <= '?')
    && (forall i :: p <= i < n - 1 ==> ' ' <= s[i] <= '/')
    && '@' <= s[n - 1] <= '~'
  }

  lemma {:induction false} RangeEnds(s: string, i: nat, low: char, high: char)
    requires i <= |s|
    ensures var j := SkipRange(s, i, low, high);
      (forall k :: i <= k < j ==> low <= s[k] <= high) && (j < |s| ==> !(low <= s[j] <= high))
    decreases |s| - i
  {
    if i < |s| {
      RangeEnds(s, i + 1, low, high);
    }
  }

  ghost predicate StartsSequence(s: string, n: nat) { exists p: nat :: SequenceOf(s, p, n) }

  lemma AnsiLengthIff(s: string, n: nat)
    requires n > 0
    ensures AnsiLength(s) == n <==> StartsSequence(s, n)
  {
    if |s| >= 2 && s[0] == ESC && s[1] == '[' {
      var params := SkipRange(s, 2, '0', '?');
      RangeEnds(s, 2, '0', '?');
      RangeEnds(s, params, ' ', '/');
      if AnsiLength(s) == n {
        assert SequenceOf(s, params, n);
      }
      if p: nat :| SequenceOf(s, p, n) {
        SameEnd(s, params, p, n);
      }
    }
  }

  /** The three parts of a sequence are of different characters, so they end where they end. */
  lemma SameEnd(s: string, params: nat, p: nat, n: nat)
    requires SequenceOf(s, p, n) && params == SkipRange(s, 2, '0', '?')
    ensures params == p && SkipRange(s, p, ' ', '/') == n - 1
  {
    RangeEnds(s, 2, '0', '?');
    RangeEnds(s, p, ' ', '/');
    assert forall i :: p <= i < n ==> !('0' <= s[i] <= '?');
    assert !(' ' <= s[n - 1] <= '/');
  }

  /** `kept` is `s` without its terminal sequences, each taken where it starts, from left to
      right; everything else is there in order. */
  ghost predicate WithoutSequences(s: string, kept: string)
    decreases |s|
  {
    if s == "" then kept == ""
    else if exists n: nat :: StartsSequence(s, n) then
      exists n: nat :: 0 < n <= |s| && StartsSequence(s, n) && WithoutSequences(s[n..], kept)
    else kept != "" && kept[0] == s[0] && WithoutSequences(s[1..], kept[1..])
  }

  /** Stripping takes exactly the terminal sequences. */
  lemma {:induction false} StripIff(s: string, kept: string)
    ensures WithoutSequences(s, kept) <==> kept == AnsiStrip(s)
    decreases |s|
  {
    hide SequenceOf, StartsSequence, AnsiLength;
    if s != "" {
      forall n: nat | StartsSequence(s, n) ensures n > 0 && AnsiLength(s) == n {
        NotShort(s, n);
        AnsiLengthIff(s, n);
      }
      var n := AnsiLength(s);
      if n > 0 {
        AnsiLengthIff(s, n);
        StripIff(s[n..], kept);
      } else if kept != "" {
        StripIff(s[1..], kept[1..]);
        assert kept == [kept[0]] + kept[1..];
      }
    }
  }

  lemma NotShort(s: string, n: nat)
    requires StartsSequence(s, n)
    ensures 0 < n <= |s|
  {
  }

  // ----------------------------------------------------------------- escapes

  function MapChars(s: string, f: char -> string): string {
    if s == "" then "" else f(s[0]) + MapChars(s[1..], f)
  }

  predicate OtherControl(c: char) {
    var code := c as int;
    code <= 8 || code == 11 || code == 12 || 14 <= code <= 31 || code == 127
  }

  const HEX_DIGITS := "0123456789abcdef"

  function Hex(c: char): string
    requires OtherControl(c)
  {
    var code := c as int;
    ['\\', 'x', HEX_DIGITS[code / 16], HEX_DIGITS[code % 16]]
  }

  function EscapeBackslash(c: char): string { if c == '\\' then "\\\\" else [c] }
  function EscapeReturn(c: char): string { if c == '\r' then "\\r" else [c] }
  function EscapeNewline(c: char): string { if c == '\n' then "\\n" else [c] }
  function EscapeOther(c: char): string { if OtherControl(c) then Hex(c) else [c] }

  /** The four replacements of `safe_text`, one whole pass after the other. */
  function EscapeStaged(s: string): string {
    MapChars(MapChars(MapChars(MapChars(s, EscapeBackslash), EscapeReturn), EscapeNewline), EscapeOther)
  }

  /** The same as one pass. */
  function EscapeChar(c: char): string {
    if c == '\\' then "\\\\" else if c == '\r' then "\\r" else if c == '\n' then "\\n"
    else if OtherControl(c) then Hex(c) else [c]
  }

  lemma {:induction false} MapConcat(a: string, b: string, f: char -> string)
    ensures MapChars(a + b, f) == MapChars(a, f) + MapChars(b, f)
  {
    if a == "" {
      assert a + b == b;
    } else {
      assert (a + b)[1..] == a[1..] + b;
      MapConcat(a[1..], b, f);
    }
  }

  lemma {:induction false} MapTwice(s: string, f: char -> string, g: char -> string, h: char -> string)
    requires forall c :: MapChars(f(c), g) == h(c)
    ensures MapChars(MapChars(s, f), g) == MapChars(s, h)
  {
    if s != "" {
      MapConcat(f(s[0]), MapChars(s[1..], f), g);
      MapTwice(s[1..], f, g, h);
    }
  }

  function EscapeTwo(c: char): string { if c == '\\' then "\\\\" else EscapeReturn(c) }
  function EscapeThree(c: char): string { if c == '\\' then "\\\\" else if c == '\r' then "\\r" else EscapeNewline(c) }

  lemma MapPlain(s: string, f: char -> string)
    requires |s| <= 2 && forall c <- s :: f(c) == [c]
    ensures MapChars(s, f) == s
  {
    if |s| == 1 { assert s == [s[0]]; }
    if |s| == 2 { assert s == [s[0], s[1]] && s[1..] == [s[1]]; assert MapChars(s[1..], f) == [s[1]]; }
  }

  lemma StageTwo(s: string)
    ensures MapChars(MapChars(s, EscapeBackslash), EscapeReturn) == MapChars(s, EscapeTwo)
  {
    forall c ensures MapChars(EscapeBackslash(c), EscapeReturn) == EscapeTwo(c) {
      if c == '\\' { MapPlain("\\\\", EscapeReturn); }
    }
    MapTwice(s, EscapeBackslash, EscapeReturn, EscapeTwo);
  }

  lemma StageThree(s: string)
    ensures MapChars(MapChars(s, EscapeTwo), EscapeNewline) == MapChars(s, EscapeThree)
  {
    forall c ensures MapChars(EscapeTwo(c), EscapeNewline) == EscapeThree(c) {
      if c == '\\' || c == '\r' { MapPlain(EscapeTwo(c), EscapeNewline); }
    }
    MapTwice(s, EscapeTwo, EscapeNewline, EscapeThree);
  }

  lemma StageFour(s: string)
    ensures MapChars(MapChars(s, EscapeThree), EscapeOther) == MapChars(s, EscapeChar)
  {
    forall c ensures MapChars(EscapeThree(c), EscapeOther) == EscapeChar(c) {
      if c == '\\' || c == '\r' || c == '\n' { MapPlain(EscapeThree(c), EscapeOther); }
    }
    MapTwice(s, EscapeThree, EscapeOther, EscapeChar);
  }

  /** The staged escapes equal one character-wise pass. */
  lemma StagedIsOnePass(s: string)
    ensures EscapeStaged(s) == MapChars(s, EscapeChar)
  {
    StageTwo(s);
    StageThree(s);
    StageFour(s);
    hide MapChars;
  }

  function HexValue(c: char): nat {
    if '0' <= c <= '9' then c as int - '0' as int else if 'a' <= c <= 'f' then c as int - 'a' as int + 10 else 0
  }

  /** Reads escaped text back. */
  function Unescape(s: string): string
    decreases |s|
  {
    if s == "" then ""
    else if s[0] != '\\' || |s| == 1 then [s[0]] + Unescape(s[1..])
    else if s[1] == 'r' then "\r" + Unescape(s[2..])
    else if s[1] == 'n' then "\n" + Unescape(s[2..])
    else if s[1] == 'x' && |s| >= 4 then [(HexValue(s[2]) * 16 + HexValue(s[3])) as char] + Unescape(s[4..])
    else [s[1]] + Unescape(s[2..])
  }

  lemma HexReadsBack(c: char)
    requires OtherControl(c)
    ensures HexValue(Hex(c)[2]) * 16 + HexValue(Hex(c)[3]) == c as int
  {
  }

  lemma UnescapeStep(c: char, rest: string)
    ensures Unescape(EscapeChar(c) + rest) == [c] + Unescape(rest)
  {
    var s := EscapeChar(c) + rest;
    if c in {'\\', '\r', '\n'} {
      assert s[2..] == rest;
    } else if OtherControl(c) {
      HexReadsBack(c);
      assert s[4..] == rest;
    } else {
      assert s[1..] == rest;
    }
  }

  lemma {:induction false} UnescapeEscaped(s: string)
    ensures Unescape(MapChars(s, EscapeChar)) == s
  {
    if s != "" {
      UnescapeStep(s[0], MapChars(s[1..], EscapeChar));
      UnescapeEscaped(s[1..]);
    }
  }

  predicate Printable(c: char) { !OtherControl(c) && c != '\r' && c != '\n' }

  lemma {:induction false} EscapedIsPrintable(s: string)
    ensures forall c <- MapChars(s, EscapeChar) :: Printable(c)
  {
    hide EscapeChar, Printable;
    if s != "" {
      CharIsPrintable(s[0]);
      EscapedIsPrintable(s[1..]);
    }
  }

  lemma CharIsPrintable(c: char)
    ensures forall d <- EscapeChar(c) :: Printable(d)
  {
    if OtherControl(c) {
      var high, low := HEX_DIGITS[c as int / 16], HEX_DIGITS[c as int % 16];
      assert Printable('\\') && Printable('x') && Printable(high) && Printable(low);
      assert Hex(c) == ['\\', 'x', high, low];
    }
  }

  function SafeText(classes: CharClasses, repo: string, home: string, value: string): string {
    EscapeStaged(AnsiStrip(RedactPaths(classes, repo, home, value)))
  }

  /** How each character shows: a backslash and a line end as two characters, another control
      character by its code in two hexadecimal digits, everything else as it is. */
  lemma EscapeOfOne(c: char)
    ensures EscapeStaged([c]) ==
            if c == '\\' then ['\\', '\\'] else if c == '\r' then ['\\', 'r'] else if c == '\n' then ['\\', 'n']
            else if (c < ' ' && c != '\t') || c as int == 127 then
              ['\\', 'x', "0123456789abcdef"[c as int / 16], "0123456789abcdef"[c as int % 16]]
            else [c]
  {
    StagedIsOnePass([c]);
    assert MapChars([c], EscapeChar) == EscapeChar(c) + MapChars([c][1..], EscapeChar);
  }

  /** Texts are escaped character by character. */
  lemma EscapeJoins(a: string, b: string)
    ensures EscapeStaged(a + b) == EscapeStaged(a) + EscapeStaged(b)
  {
    StagedIsOnePass(a);
    StagedIsOnePass(b);
    StagedIsOnePass(a + b);
    MapConcat(a, b, EscapeChar);
  }

  /** The output of `safe_text` has no C0 control character but tab, and no DEL; decoding
      it gives back the redacted text without its ANSI sequences, so distinct such texts
      have distinct outputs. */
  lemma SafeTextIsReadable(classes: CharClasses, repo: string, home: string, value: string)
    ensures var out := SafeText(classes, repo, home, value);
            && (forall c <- out :: c as int == 9 || (c as int >= 32 && c as int != 127))
            && Unescape(out) == AnsiStrip(RedactPaths(classes, repo, home, value))
            && WithoutSequences(RedactPaths(classes, repo, home, value), Unescape(out))
  {
    EscapesAreReadable(AnsiStrip(RedactPaths(classes, repo, home, value)));
    StripIff(RedactPaths(classes, repo, home, value), AnsiStrip(RedactPaths(classes, repo, home, value)));
    hide WithoutSequences, RedactPaths, AnsiStrip, EscapeStaged, Unescape;
  }

  lemma EscapesAreReadable(s: string)
    ensures forall c <- EscapeStaged(s) :: c as int == 9 || (c as int >= 32 && c as int != 127)
    ensures Unescape(EscapeStaged(s)) == s
  {
    hide MapChars, EscapeStaged, Unescape;
    StagedIsOnePass(s);
    EscapedIsPrintable(s);
    UnescapeEscaped(s);
    assert forall c: char :: Printable(c) ==> c as int == 9 || (c as int >= 32 && c as int != 127);
  }

  lemma EscapeInjective(a: string, b: string)
    requires EscapeStaged(a) == EscapeStaged(b)
    ensures a == b
  {
    StagedIsOnePass(a);
    StagedIsOnePass(b);
    UnescapeEscaped(a);
    UnescapeEscaped(b);
  }

  // ------------------------------------------------- paths that come back

  /** The pattern matches somewhere in `s`. */
  predicate HasMatch(classes: CharClasses, left: Left, s: string)
    decreases |s|
  {
    s != "" && (StartsPath(classes, left, s) || HasMatch(classes, Char(s[0]), s[1..]))
  }

  lemma {:induction false} HasMatchFrom(classes: CharClasses, s: string, i: nat)
    requires i <= |s|
    ensures HasMatch(classes, LeftOf(s, i), s[i..]) <==> exists j :: i <= j <= |s| && MatchAt(classes, s, j)
    decreases |s| - i
  {
    if i < |s| {
      HasMatchFrom(classes, s, i + 1);
      assert s[i..][1..] == s[i + 1..];
      assert HasMatch(classes, LeftOf(s, i), s[i..])
        <==> MatchAt(classes, s, i) || HasMatch(classes, LeftOf(s, i + 1), s[i + 1..]);
    } else {
      assert s[i..] == "";
    }
  }

  predicate IsEscaped(c: char) { EscapeChar(c) != [c] }

  /** What follows a slash in the output, when `s` follows it in the redacted text, lets a
      path begin there. */
  predicate LetsPathBegin(classes: CharClasses, s: string) {
    var kept := AnsiStrip(s);
    kept != "" && var next := EscapeChar(kept[0])[0]; !classes.space(next) && !Stop(next)
  }

  /** `s` starts with a slash that no path began at and now one does: either only a
      terminal sequence, which is gone, kept it from that, or the white space after it
      was escaped. `inner` is the left neighbour in the redacted text, `outer` in the output. */
  predicate ExposedHere(classes: CharClasses, inner: Left, outer: Left, s: string) {
    && s != "" && s[0] == '/' && !Blocks(classes, outer) && LetsPathBegin(classes, s[1..])
    && (Blocks(classes, inner) || (|s| >= 2 && IsEscaped(s[1])))
  }

  /** Some slash of the redacted text is exposed. */
  predicate Exposed(classes: CharClasses, inner: Left, outer: Left, s: string)
    decreases |s|
  {
    if s == "" then false
    else if AnsiLength(s) > 0 then Exposed(classes, Char(s[AnsiLength(s) - 1]), outer, s[AnsiLength(s)..])
    else ExposedHere(classes, inner, outer, s)
         || Exposed(classes, Char(s[0]), LastOf(outer, EscapeChar(s[0])), s[1..])
  }

  lemma {:induction false} NoMatchLater(classes: CharClasses, left: Left, s: string, n: nat)
    requires 0 < n <= |s| && !HasMatch(classes, left, s)
    ensures !HasMatch(classes, Char(s[n - 1]), s[n..])
    decreases n
  {
    if n > 1 {
      NoMatchLater(classes, Char(s[0]), s[1..], n - 1);
      assert s[1..][n - 1..] == s[n..];
    }
  }

  /** A text without a slash holds no start of a match. */
  lemma {:induction false} SkipNoSlash(classes: CharClasses, left: Left, s: string, rest: string)
    requires forall c <- s :: c != '/'
    ensures HasMatch(classes, left, s + rest) <==> HasMatch(classes, LastOf(left, s), rest)
    decreases |s|
  {
    if s == "" {
      assert s + rest == rest;
    } else {
      assert s[0] in s && forall c <- s[1..] :: c in s;
      assert (s + rest)[1..] == s[1..] + rest;
      SkipNoSlash(classes, Char(s[0]), s[1..], rest);
      assert LastOf(Char(s[0]), s[1..]) == LastOf(left, s);
    }
  }

  lemma EscapeHasNoSlash(c: char)
    requires c != '/'
    ensures forall d <- EscapeChar(c) :: d != '/'
  {
    assert forall i :: 0 <= i < 16 ==> HEX_DIGITS[i] != '/';
  }

  /** A slash that starts no match in the redacted text starts one in the output exactly
      when it is exposed. */
  lemma SlashMatchesIff(classes: CharClasses, inner: Left, outer: Left, s: string)
    requires classes.Valid() && s != "" && s[0] == '/' && !StartsPath(classes, inner, s)
    ensures StartsPath(classes, outer, "/" + MapChars(AnsiStrip(s[1..]), EscapeChar))
       <==> ExposedHere(classes, inner, outer, s)
  {
    var tail := s[1..];
    var rest := MapChars(AnsiStrip(tail), EscapeChar);
    if AnsiStrip(tail) != "" {
      assert rest[0] == EscapeChar(AnsiStrip(tail)[0])[0];
      assert tail != "" && s[1] == tail[0];
      if AnsiLength(tail) > 0 {
        assert s[1] == ESC && Blocks(classes, inner);
      } else {
        assert AnsiStrip(tail)[0] == s[1];
      }
    } else {
      assert "/" + rest == "/";
    }
  }

  lemma {:induction false} OutputMatchesIff(classes: CharClasses, inner: Left, outer: Left, s: string)
    requires classes.Valid() && !HasMatch(classes, inner, s)
    ensures HasMatch(classes, outer, MapChars(AnsiStrip(s), EscapeChar)) <==> Exposed(classes, inner, outer, s)
    decreases |s|
  {
    hide ExposedHere, StartsPath, AnsiLength;
    if s != "" {
      var n := AnsiLength(s);
      if n > 0 {
        NoMatchLater(classes, inner, s, n);
        OutputMatchesIff(classes, Char(s[n - 1]), outer, s[n..]);
      } else {
        var rest := MapChars(AnsiStrip(s[1..]), EscapeChar);
        var escaped := EscapeChar(s[0]);
        assert AnsiStrip(s) == [s[0]] + AnsiStrip(s[1..]);
        assert MapChars(AnsiStrip(s), EscapeChar) == escaped + rest;
        OutputMatchesIff(classes, Char(s[0]), LastOf(outer, escaped), s[1..]);
        if s[0] == '/' {
          SlashMatchesIff(classes, inner, outer, s);
          assert escaped == "/" && (escaped + rest)[1..] == rest;
        } else {
          EscapeHasNoSlash(s[0]);
          SkipNoSlash(classes, outer, escaped, rest);
          NotASlash(classes, inner, outer, s);
        }
      }
    }
  }

  lemma NotASlash(classes: CharClasses, inner: Left, outer: Left, s: string)
    requires s != "" && s[0] != '/'
    ensures !ExposedHere(classes, inner, outer, s)
  {
  }

  /** The output shows an absolute path exactly when some slash of the redacted text is
      exposed by the steps after the redaction. */
  lemma SafeTextShowsPathIff(classes: CharClasses, repo: string, home: string, value: string)
    requires classes.Valid()
    ensures var out := SafeText(classes, repo, home, value);
            (exists i :: 0 <= i <= |out| && MatchAt(classes, out, i))
            <==> Exposed(classes, Edge, Edge, RedactPaths(classes, repo, home, value))
  {
    hide AnsiStrip, EscapeStaged, MapChars, Exposed, HasMatch, MatchAt;
    var redacted := RedactPaths(classes, repo, home, value);
    var out := SafeText(classes, repo, home, value);
    RedactedHasNoMatch(classes, repo, home, value);
    StagedIsOnePass(AnsiStrip(redacted));
    OutputMatchesIff(classes, Edge, Edge, redacted);
    HasMatchFrom(classes, out, 0);
    assert out[0..] == out;
  }

  lemma RedactedHasNoMatch(classes: CharClasses, repo: string, home: string, value: string)
    requires classes.Valid()
    ensures !HasMatch(classes, Edge, RedactPaths(classes, repo, home, value))
  {
    hide Replace, Scan, HasMatch, MatchAt;
    var redacted := RedactPaths(classes, repo, home, value);
    var a := if repo == "" then value else Replace(value, repo, "<repo>");
    ScanIsFixpoint(classes, if home == "" then a else Replace(a, home, "<home>"));
    HasMatchFrom(classes, redacted, 0);
    assert redacted[0..] == redacted;
  }

  // --------------------------------------------- the two roots in the output

  lemma {:induction false} UnescapeAfter(s: string, rest: string)
    ensures Unescape(MapChars(s, EscapeChar) + rest) == s + Unescape(rest)
  {
    hide EscapeChar, Unescape;
    if s == "" {
      assert "" + rest == rest;
    } else {
      var more := MapChars(s[1..], EscapeChar);
      UnescapeAfter(s[1..], rest);
      UnescapeStep(s[0], more + rest);
      assert EscapeChar(s[0]) + more + rest == EscapeChar(s[0]) + (more + rest);
    }
  }

  lemma EscapedPrefixIff(x: string, s: string)
    ensures MapChars(x, EscapeChar) <= MapChars(s, EscapeChar) <==> x <= s
  {
    var ex, es := MapChars(x, EscapeChar), MapChars(s, EscapeChar);
    hide MapChars, EscapeChar, Unescape;
    if x <= s {
      assert s == x + s[|x|..];
      MapConcat(x, s[|x|..], EscapeChar);
    }
    if ex <= es {
      assert es == ex + es[|ex|..];
      UnescapeAfter(x, es[|ex|..]);
      UnescapeEscaped(s);
    }
  }

  /** Every slash of escaped text is one of the text itself. */
  lemma {:induction false} EscapedRootIff(root: string, s: string)
    requires root != "" && root[0] == '/'
    ensures Contains(MapChars(root, EscapeChar), MapChars(s, EscapeChar)) <==> Contains(root, s)
    decreases |s|
  {
    var shown := MapChars(root, EscapeChar);
    assert shown != "" && shown[0] == '/';
    if s == "" {
      EmptyHasNoRoot(root);
      EmptyHasNoRoot(shown);
    } else {
      var rest := MapChars(s[1..], EscapeChar);
      EscapedRootIff(root, s[1..]);
      EscapedPrefixIff(root, s);
      assert s == [s[0]] + s[1..];
      hide Contains, NoSlash;
      AfterChar(root, s[0], s[1..]);
      if s[0] == '/' {
        AfterChar(shown, '/', rest);
      } else {
        EscapeHasNoSlash(s[0]);
        AfterNoSlash(shown, EscapeChar(s[0]), rest);
      }
    }
  }

  /** The output shows a root, as `safe_text` writes it, exactly when the redacted text
      holds it once its terminal sequences are dropped. */
  lemma SafeTextShowsRootIff(classes: CharClasses, repo: string, home: string, value: string, root: string)
    requires root != "" && root[0] == '/'
    ensures Contains(EscapeStaged(root), SafeText(classes, repo, home, value))
       <==> Contains(root, AnsiStrip(RedactPaths(classes, repo, home, value)))
  {
    hide Contains, MapChars, RedactPaths, AnsiStrip, EscapeStaged;
    var kept := AnsiStrip(RedactPaths(classes, repo, home, value));
    StagedIsOnePass(root);
    StagedIsOnePass(kept);
    EscapedRootIff(root, kept);
  }

  /** No escape character, and no slash directly before a character that gets escaped. */
  predicate Clean(s: string) {
    ESC !in s && forall i :: 0 < i < |s| && s[i - 1] == '/' ==> !IsEscaped(s[i])
  }

  lemma CleanSuffix(s: string, n: nat)
    requires n <= |s| && Clean(s)
    ensures Clean(s[n..])
  {
    hide IsEscaped;
  }

  lemma CleanConcat(s: string, t: string)
    requires Clean(s) && Clean(t)
    requires s == "" || t == "" || s[|s| - 1] != '/' || !IsEscaped(t[0])
    ensures Clean(s + t)
  {
    hide IsEscaped;
    var both := s + t;
    forall i | 0 < i < |both| && both[i - 1] == '/' ensures !IsEscaped(both[i]) {
      if i > |s| {
        assert both[i] == t[i - |s|] && both[i - 1] == t[i - |s| - 1];
      } else if i < |s| {
        assert both[i] == s[i] && both[i - 1] == s[i - 1];
      } else {
        assert both[i] == t[0] && both[i - 1] == s[|s| - 1];
      }
    }
  }

  /** `<repo>`, `<home>` and `<path>` add nothing that is escaped. */
  lemma MarksAreClean()
    ensures Clean("<repo>") && Clean("<home>") && Clean(PATH_MARK) && !IsEscaped('<')
  {
    assert forall c <- "<repo>" :: c != ESC && c != '/';
    assert forall c <- "<home>" :: c != ESC && c != '/';
    assert forall c <- PATH_MARK :: c != ESC && c != '/';
    assert NoSlash("<repo>") && NoSlash("<home>") && NoSlash(PATH_MARK);
  }

  lemma OneIsClean(c: char)
    requires c != ESC
    ensures Clean([c])
  {
  }

  lemma {:induction false} ReplaceKeepsClean(s: string, source: string, mark: string)
    requires source != "" && Clean(s) && Clean(mark) && Bracketed(mark) && !IsEscaped('<')
    ensures Clean(Replace(s, source, mark))
    decreases |s|
  {
    hide Clean, IsEscaped, NoSlash;
    if s == "" {
    } else if source <= s {
      CleanSuffix(s, |source|);
      ReplaceKeepsClean(s[|source|..], source, mark);
      CleanConcat(mark, Replace(s[|source|..], source, mark));
    } else {
      var rest := Replace(s[1..], source, mark);
      CleanSuffix(s, 1);
      ReplaceKeepsClean(s[1..], source, mark);
      CleanStart(s);
      if s[1..] != "" {
        FirstOfReplace(s[1..], source, mark);
      }
      CleanConcat([s[0]], rest);
    }
  }

  lemma CleanStart(s: string)
    requires s != "" && Clean(s)
    ensures Clean([s[0]]) && (|s| > 1 && s[0] == '/' ==> !IsEscaped(s[1]))
  {
  }

  lemma {:induction false} ScanKeepsClean(classes: CharClasses, left: Left, s: string)
    requires Clean(s)
    ensures Clean(Scan(classes, left, s))
    decreases |s|
  {
    MarksAreClean();
    hide Clean, IsEscaped, StartsPath, RunLength;
    if s == "" {
    } else if StartsPath(classes, left, s) {
      ReplacedRun(classes, left, s);
      var n := RunLength(s);
      CleanSuffix(s, n);
      ScanKeepsClean(classes, Char(s[n - 1]), s[n..]);
      CleanConcat(PATH_MARK, Scan(classes, Char(s[n - 1]), s[n..]));
    } else {
      CleanSuffix(s, 1);
      ScanKeepsClean(classes, Char(s[0]), s[1..]);
      CleanStart(s);
      if s[1..] != "" {
        FirstOfScan(classes, Char(s[0]), s[1..]);
      }
      CleanConcat([s[0]], Scan(classes, Char(s[0]), s[1..]));
    }
  }

  /** A character that keeps a path from beginning still does after the escapes. */
  lemma BlocksSurvive(classes: CharClasses, outer: Left, c: char)
    requires classes.Valid() && Blocks(classes, Char(c))
    ensures Blocks(classes, LastOf(outer, EscapeChar(c)))
  {
  }

  lemma {:induction false} CleanIsNotExposed(classes: CharClasses, inner: Left, outer: Left, s: string)
    requires classes.Valid() && Clean(s) && (Blocks(classes, inner) ==> Blocks(classes, outer))
    ensures !Exposed(classes, inner, outer, s)
    decreases |s|
  {
    hide IsEscaped, LetsPathBegin, CharClasses.Valid, Blocks, EscapeChar;
    if s != "" {
      assert s[0] in s && AnsiLength(s) == 0;
      CleanStart(s);
      CleanSuffix(s, 1);
      if Blocks(classes, Char(s[0])) {
        BlocksSurvive(classes, outer, s[0]);
      }
      CleanIsNotExposed(classes, Char(s[0]), LastOf(outer, EscapeChar(s[0])), s[1..]);
    }
  }

  lemma RedactedIsClean(classes: CharClasses, repo: string, home: string, value: string)
    requires IsRoot(repo) && IsRoot(home) && Clean(value)
    ensures Clean(RedactPaths(classes, repo, home, value))
  {
    MarksAreMarks();
    MarksAreClean();
    assert Bracketed("<repo>") && Bracketed("<home>");
    hide Clean, Replace, Scan, Bracketed, IsEscaped;
    ReplaceKeepsClean(value, repo, "<repo>");
    ReplaceKeepsClean(Replace(value, repo, "<repo>"), home, "<home>");
    ScanKeepsClean(classes, Edge, Replace(Replace(value, repo, "<repo>"), home, "<home>"));
  }

  /** From a value without an escape character and without a slash directly before an
      escaped character, `safe_text` shows neither a root nor any other absolute path. */
  lemma CleanTextIsSafe(classes: CharClasses, repo: string, home: string, value: string)
    requires classes.Valid() && IsRoot(repo) && IsRoot(home) && Clean(value)
    ensures var out := SafeText(classes, repo, home, value);
            && (forall i :: 0 <= i <= |out| ==> !MatchAt(classes, out, i))
            && !Contains(EscapeStaged(repo), out) && !Contains(EscapeStaged(home), out)
  {
    var redacted := RedactPaths(classes, repo, home, value);
    RedactedIsClean(classes, repo, home, value);
    assert ESC !in redacted;
    hide Clean, Contains, SafeText, RedactPaths, AnsiStrip, Exposed, EscapeStaged, MatchAt;
    CleanIsNotExposed(classes, Edge, Edge, redacted);
    SafeTextShowsPathIff(classes, repo, home, value);
    AnsiStripAfter(redacted, "");
    assert redacted + "" == redacted;
    RedactedHidesRoots(classes, repo, home, value);
    SafeTextShowsRootIff(classes, repo, home, value, repo);
    SafeTextShowsRootIff(classes, repo, home, value, home);
  }

  // ------------------------------------------------- inputs that show a path

  lemma {:induction false} AnsiStripAfter(s: string, rest: string)
    requires ESC !in s
    ensures AnsiStrip(s + rest) == s + AnsiStrip(rest)
    ensures rest == "" ==> AnsiStrip(s + rest) == s
    decreases |s|
  {
    if s == "" {
      assert s + rest == rest;
    } else {
      assert (s + rest)[1..] == s[1..] + rest;
      AnsiStripAfter(s[1..], rest);
    }
  }

  lemma {:induction false} PlainIsKept(s: string)
    requires forall c <- s :: !IsEscaped(c)
    ensures EscapeStaged(s) == s
  {
    StagedIsOnePass(s);
    PlainIsMapped(s);
  }

  lemma {:induction false} PlainIsMapped(s: string)
    requires forall c <- s :: !IsEscaped(c)
    ensures MapChars(s, EscapeChar) == s
  {
    if s != "" {
      assert s[0] in s && forall c <- s[1..] :: c in s;
      hide EscapeChar;
      PlainIsMapped(s[1..]);
    }
  }

  /** Without a root in it, a text in which no slash can start a match is not redacted. */
  lemma NotRedacted(classes: CharClasses, repo: string, home: string, value: string)
    requires !Contains(repo, value) && !Contains(home, value) && Glued(classes, Edge, value)
    ensures RedactPaths(classes, repo, home, value) == value
  {
    hide Contains, Replace, Scan, Glued;
    ReplaceAbsent(value, repo, "<repo>");
    ReplaceAbsent(value, home, "<home>");
    ScanAll(classes, value);
  }

  /** A slash after a sequence that ends in a letter. */
  function SequencedPath(): string { [ESC, '[', 'm', '/', 'e'] }

  lemma SequenceIsKept(classes: CharClasses, repo: string, home: string)
    requires classes.word('m') && !Contains(repo, SequencedPath()) && !Contains(home, SequencedPath())
    ensures RedactPaths(classes, repo, home, SequencedPath()) == SequencedPath()
  {
    hide RedactPaths, Glued, Contains;
    GluedEverywhere(classes, Edge, SequencedPath());
    NotRedacted(classes, repo, home, SequencedPath());
  }

  lemma SequenceIsDropped()
    ensures AnsiStrip(SequencedPath()) == "/e" && EscapeStaged("/e") == "/e"
  {
    assert AnsiLength(SequencedPath()) == 3 && SequencedPath()[3..] == "/e";
    AnsiStripAfter("/e", "");
    assert "/e" + "" == "/e";
    PlainIsKept("/e");
  }

  /** A sequence that ends in a letter keeps a path from being seen, and is then dropped. */
  lemma StrippingBringsPathBack(classes: CharClasses, repo: string, home: string)
    requires classes.Valid() && classes.word('m') && !classes.space('e')
    requires !Contains(repo, SequencedPath()) && !Contains(home, SequencedPath())
    ensures RedactPaths(classes, repo, home, SequencedPath()) == SequencedPath()
    ensures SafeText(classes, repo, home, SequencedPath()) == "/e" && MatchAt(classes, "/e", 0)
  {
    assert "/e"[0..] == "/e";
    hide RedactPaths, AnsiStrip, EscapeStaged, SequencedPath, Contains;
    SequenceIsKept(classes, repo, home);
    SequenceIsDropped();
  }

  /** A line end after a slash keeps a path from being seen, and then shows as a backslash. */
  lemma EscapingBringsPathBack(classes: CharClasses, repo: string, home: string)
    requires classes.Valid() && !classes.space('\\')
    requires !Contains(repo, "/\n") && !Contains(home, "/\n")
    ensures RedactPaths(classes, repo, home, "/\n") == "/\n"
    ensures SafeText(classes, repo, home, "/\n") == "/\\n" && MatchAt(classes, "/\\n", 0)
  {
    var value := "/\n";
    assert value[1..] == "\n" && "\n"[1..] == "";
    StopIsKept(classes, Char('/'), "\n");
    assert Scan(classes, Edge, value) == value;
    hide Contains;
    ReplaceAbsent(value, repo, "<repo>");
    ReplaceAbsent(value, home, "<home>");
    AnsiStripAfter(value, "");
    assert value + "" == value;
    StagedIsOnePass(value);
    assert MapChars("\n", EscapeChar) == "\\n";
    assert "/\\n"[0..] == "/\\n";
  }

  /** `x/repo` with a terminal sequence in the root. */
  function SplitRoot(): string { ['x', '/', 'r', ESC, '[', 'm', 'e', 'p', 'o'] }

  lemma SplitRootIsKept(classes: CharClasses)
    requires classes.word('x')
    ensures RedactPaths(classes, "/repo", "/home/u", SplitRoot()) == SplitRoot()
  {
    assert "/repo"[0] == '/' && "/repo"[2] == 'e' && "/home/u"[0] == '/' && "/home/u"[1] == 'h';
    hide RedactPaths;
    SlashAtOne(SplitRoot(), "/repo");
    SlashAtOne(SplitRoot(), "/home/u");
    GluedEverywhere(classes, Edge, SplitRoot());
    NotRedacted(classes, "/repo", "/home/u", SplitRoot());
  }

  lemma SplitRootIsJoined()
    ensures AnsiStrip(SplitRoot()) == "x/repo"
  {
    var tail := [ESC, '[', 'm', 'e', 'p', 'o'];
    assert AnsiLength(tail) == 3 && tail[3..] == "epo";
    AnsiStripAfter("epo", "");
    assert "epo" + "" == "epo" && AnsiStrip(tail) == "epo";
    AnsiStripAfter("x/r", tail);
    assert SplitRoot() == "x/r" + tail && "x/r" + "epo" == "x/repo";
  }

  lemma JoinedRootIsPlain()
    ensures EscapeStaged("x/repo") == "x/repo" && Contains("/repo", "x/repo")
  {
    var out := "x/repo";
    assert out[1..] == "/repo" && ContainsAt("/repo", out, 1);
    hide Contains, EscapeStaged;
    PlainIsKept(out);
  }

  lemma JoinedRootHasNoMatch(classes: CharClasses)
    requires classes.word('x')
    ensures forall i :: 0 <= i <= 6 ==> !MatchAt(classes, "x/repo", i)
  {
    var out := "x/repo";
    hide MatchAt, Scan, Glued;
    GluedEverywhere(classes, Edge, out);
    ScanAll(classes, out);
    UnchangedIffNoMatch(classes, out);
    assert |out| == 6;
  }

  /** A root that a terminal sequence splits is not seen, and whole again in the output;
      the pattern does not match there, because a letter comes before the slash. */
  lemma StrippingBringsRootBack(classes: CharClasses)
    requires classes.word('x')
    ensures SafeText(classes, "/repo", "/home/u", SplitRoot()) == "x/repo" && Contains("/repo", "x/repo")
    ensures forall i :: 0 <= i <= 6 ==> !MatchAt(classes, "x/repo", i)
  {
    JoinedRootIsPlain();
    JoinedRootHasNoMatch(classes);
    hide RedactPaths, AnsiStrip, MatchAt, EscapeStaged, SplitRoot, Contains;
    SplitRootIsKept(classes);
    SplitRootIsJoined();
  }

  /** A root can only be where the text has a slash. */
  lemma SlashAtOne(s: string, root: string)
    requires |s| >= 4 && |root| >= 3 && root[0] == '/' && !(root <= s[1..])
    requires forall i :: 0 <= i < |s| && s[i] == '/' ==> i == 1
    ensures !Contains(root, s)
  {
    forall i: nat | i <= |s| ensures !ContainsAt(root, s, i) {
      if i < |s| {
        assert s[i..][0] == s[i];
      }
    }
  }
}
