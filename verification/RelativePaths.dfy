/** Relative paths of the file mover, at the level of their characters: normalisation, the `..`
    check, grant prefixes and collision-free names. */
module RelativePaths {
  import Decimal

  function Slashes(path: string): string {
    seq(|path|, i requires 0 <= i < |path| => if path[i] == '\\' then '/' else path[i])
  }

  function StripLeading(path: string): (r: string)
    ensures r == "" || r[0] != '/'
    ensures '\\' !in path ==> '\\' !in r
  {
    if path != "" && path[0] == '/' then StripLeading(path[1..]) else path
  }

  function NormalizeRelative(path: string): string {
    StripLeading(Slashes(path))
  }

  predicate IsAbsolute(path: string) {
    || (|path| >= 3 && ('a' <= path[0] <= 'z' || 'A' <= path[0] <= 'Z') && path[1] == ':' && path[2] in "/\\")
    || (path != "" && path[0] in "/\\")
  }

  predicate EndsWith(s: string, suffix: string) {
    |suffix| <= |s| && s[|s| - |suffix|..] == suffix
  }

  predicate MatchesAt(s: string, part: string, i: int) {
    0 <= i <= |s| - |part| && s[i..i + |part|] == part
  }

  predicate Includes(s: string, part: string) {
    exists i :: 0 <= i <= |s| && MatchesAt(s, part, i)
  }

  predicate Escapes(path: string) {
    var n := NormalizeRelative(path);
    n == ".." || "../" <= n || Includes(n, "/../") || EndsWith(n, "/..")
  }

  /** A prefix with its trailing slash. */
  function Clean(prefix: string): (c: string)
    ensures EndsWith(c, "/")
  {
    var n := NormalizeRelative(prefix);
    if EndsWith(n, "/") then n else n + "/"
  }

  predicate WithinPrefix(path: string, prefix: string) {
    var n, clean := NormalizeRelative(path), Clean(prefix);
    n == clean[..|clean| - 1] || clean <= n
  }

  predicate WithinGrant(path: string, prefixes: seq<string>) {
    exists i :: 0 <= i < |prefixes| && WithinPrefix(path, prefixes[i])
  }

  function LastIndexOf(s: string, c: char): (i: int)
    ensures -1 <= i < |s|
    ensures i >= 0 ==> s[i] == c
    ensures forall j :: i < j < |s| ==> s[j] != c
  {
    if s == "" then -1 else if s[|s| - 1] == c then |s| - 1 else LastIndexOf(s[..|s| - 1], c)
  }

  function FileName(path: string): string {
    path[LastIndexOf(path, '/') + 1..]
  }

  /** The destination directory without one trailing slash. */
  function Stem(directory: string): string {
    var n := NormalizeRelative(directory);
    if EndsWith(n, "/") then n[..|n| - 1] else n
  }

  function Base(fileName: string): string {
    if '.' in fileName then fileName[..LastIndexOf(fileName, '.')] else fileName
  }

  function Extension(fileName: string): string {
    if '.' in fileName then fileName[LastIndexOf(fileName, '.')..] else ""
  }

  /** The name tried on probe `k`. */
  function CandidateName(fileName: string, k: nat): string {
    if k == 0 then fileName else Base(fileName) + "-" + Decimal.Render(k) + Extension(fileName)
  }

  function Candidate(directory: string, fileName: string, k: nat): string {
    Stem(directory) + "/" + CandidateName(fileName, k)
  }

  // ---- normalisation ---------------------------------------------------------------------

  lemma {:induction false} StripLeadingFixes(path: string)
    requires path == "" || path[0] != '/'
    ensures StripLeading(path) == path
  {
  }

  lemma NormalForm(path: string)
    ensures '\\' !in NormalizeRelative(path)
    ensures NormalizeRelative(NormalizeRelative(path)) == NormalizeRelative(path)
  {
    var n := NormalizeRelative(path);
    assert '\\' !in Slashes(path);
    assert Slashes(n) == n;
  }

  lemma AlreadyNormal(path: string)
    requires '\\' !in path && (path == "" || path[0] != '/')
    ensures NormalizeRelative(path) == path
  {
    assert Slashes(path) == path;
  }

  /** `n` is `path` with its leading slashes of either kind gone and every other one turned. */
  predicate Normalized(path: string, n: string) {
    var k := |path| - |n|;
    && 0 <= k
    && (forall i :: 0 <= i < k ==> path[i] == '/' || path[i] == '\\')
    && (forall j :: 0 <= j < |n| ==> n[j] == if path[k + j] == '\\' then '/' else path[k + j])
    && (n == "" || n[0] != '/')
  }

  lemma {:induction false} StripsAll(path: string, n: string)
    requires |n| <= |path| && n == path[|path| - |n|..] && (n == "" || n[0] != '/')
    requires forall i :: 0 <= i < |path| - |n| ==> path[i] == '/'
    ensures StripLeading(path) == n
  {
    if |n| < |path| {
      assert path[0] == '/' && path[1..][|path| - |n| - 1..] == n;
      StripsAll(path[1..], n);
    } else {
      assert path == n;
    }
  }

  /** Normalisation drops the leading slashes of either kind, turns the others and nothing else; so
      it changes nothing the second time. */
  lemma NormalizedIs(path: string, n: string)
    requires Normalized(path, n)
    ensures NormalizeRelative(path) == n && NormalizeRelative(n) == n
  {
    assert Slashes(path)[|path| - |n|..] == n;
    StripsAll(Slashes(path), n);
    AlreadyNormal(n);
  }

  /** `own` is the directory a grant prefix names: the prefix, normalised, without one slash at its
      end. */
  ghost predicate NamesDirectory(prefix: string, own: string) {
    Normalized(prefix, own + "/") || (Normalized(prefix, own) && (own == "" || own[|own| - 1] != '/'))
  }

  /** `n` is the directory `prefix` names, or lies below it. */
  ghost predicate Covers(prefix: string, n: string) {
    exists own: string :: NamesDirectory(prefix, own) && (n == own || own + "/" <= n)
  }

  lemma NormalizesTo(path: string) returns (n: string)
    ensures Normalized(path, n) && n == NormalizeRelative(path)
  {
    n := StripsSome(Slashes(path));
    forall i | 0 <= i < |path| - |n|
      ensures path[i] == '/' || path[i] == '\\'
    {
      assert Slashes(path)[i] == '/';
    }
    NormalizedIs(path, n);
  }

  lemma {:induction false} StripsSome(path: string) returns (n: string)
    ensures |n| <= |path| && n == path[|path| - |n|..] && (n == "" || n[0] != '/')
    ensures forall i :: 0 <= i < |path| - |n| ==> path[i] == '/'
  {
    if path != "" && path[0] == '/' {
      n := StripsSome(path[1..]);
      assert forall i :: 0 < i < |path| - |n| ==> path[i] == path[1..][i - 1];
    } else {
      n := path;
    }
  }

  lemma EndsInSlash(s: string)
    ensures EndsWith(s, "/") <==> s != "" && s[|s| - 1] == '/'
  {
    if s != "" {
      assert s[|s| - 1..] == [s[|s| - 1]];
    }
  }

  lemma CleanNames(prefix: string, own: string)
    requires NamesDirectory(prefix, own)
    ensures Clean(prefix) == own + "/"
  {
    if Normalized(prefix, own + "/") {
      NormalizedIs(prefix, own + "/");
    } else {
      NormalizedIs(prefix, own);
      EndsInSlash(own);
    }
  }

  lemma NamesSome(prefix: string) returns (own: string)
    ensures NamesDirectory(prefix, own)
  {
    var p := NormalizesTo(prefix);
    if p != "" && p[|p| - 1] == '/' {
      own := p[..|p| - 1];
      assert p == own + "/";
    } else {
      own := p;
    }
  }

  /** A normalised path is within a prefix if and only if the prefix's directory covers it. */
  lemma WithinPrefixIff(n: string, prefix: string)
    requires NormalizeRelative(n) == n
    ensures WithinPrefix(n, prefix) <==> Covers(prefix, n)
  {
    var some := NamesSome(prefix);
    forall own | NamesDirectory(prefix, own)
      ensures WithinPrefix(n, prefix) <==> n == own || own + "/" <= n
    {
      CleanNames(prefix, own);
      assert (own + "/")[..|own|] == own;
    }
  }

  function Letter(c: char): bool {
    'a' <= c <= 'z' || 'A' <= c <= 'Z'
  }

  /** `path` begins with a slash of either kind, or with a drive and one. */
  ghost predicate AtRoot(path: string) {
    exists drive: string, slash: char, rest: string ::
      && (drive == "" || (|drive| == 2 && Letter(drive[0]) && drive[1] == ':'))
      && (slash == '/' || slash == '\\')
      && path == drive + [slash] + rest
  }

  lemma AbsoluteIffAtRoot(path: string)
    ensures IsAbsolute(path) <==> AtRoot(path)
  {
    if path != "" && path[0] in "/\\" {
      assert path == "" + [path[0]] + path[1..];
    }
    if |path| >= 3 && Letter(path[0]) && path[1] == ':' && path[2] in "/\\" {
      assert path == path[..2] + [path[2]] + path[3..];
    }
  }

  // ---- escape is a `..` component --------------------------------------------------------

  /** The pieces between slashes. */
  function Components(path: string): seq<string>
    decreases |path|
  {
    var i := LastIndexOf(path, '/');
    if i < 0 then [path] else Components(path[..i]) + [path[i + 1..]]
  }

  /** `..` stands at `i`, bounded by slashes or the ends. */
  predicate DotDotAt(path: string, i: int) {
    && 0 <= i <= |path| - 2
    && path[i] == '.' && path[i + 1] == '.'
    && (i == 0 || path[i - 1] == '/')
    && (i + 2 == |path| || path[i + 2] == '/')
  }

  lemma {:induction false} ComponentStands(path: string)
    requires ".." in Components(path)
    ensures exists i :: DotDotAt(path, i)
    decreases |path|
  {
    var k := LastIndexOf(path, '/');
    if path[k + 1..] == ".." {
      assert path[k + 1] == path[k + 1..][0] && path[k + 2] == path[k + 1..][1];
      assert DotDotAt(path, k + 1);
    } else {
      ComponentStands(path[..k]);
      var i :| DotDotAt(path[..k], i);
      assert DotDotAt(path, i);
    }
  }

  lemma {:induction false} StandingIsComponent(path: string, i: int)
    requires DotDotAt(path, i)
    ensures ".." in Components(path)
    decreases |path|
  {
    var k := LastIndexOf(path, '/');
    if i <= k {
      assert i + 2 <= k;
      StandingIsComponent(path[..k], i);
    } else {
      assert i == k + 1 && path[i..] == [path[i], path[i + 1]] == "..";
    }
  }

  lemma EscapesFindsDotDot(n: string)
    ensures (n == ".." || "../" <= n || Includes(n, "/../") || EndsWith(n, "/..")) <==> exists i :: DotDotAt(n, i)
  {
    if i :| DotDotAt(n, i) {
      if i == 0 && |n| == 2 {
        assert n == "..";
      } else if i == 0 {
        assert n[..3] == "../";
      } else if i + 2 == |n| {
        assert n[i - 1..] == "/..";
      } else {
        assert n[i - 1..i + 3] == "/../";
        assert MatchesAt(n, "/../", i - 1);
      }
    }
    if n == ".." || "../" <= n {
      assert DotDotAt(n, 0);
    }
    if Includes(n, "/../") {
      var i :| 0 <= i <= |n| && MatchesAt(n, "/../", i);
      var w := n[i..i + 4];
      assert w[0] == n[i] && w[1] == n[i + 1] && w[2] == n[i + 2] && w[3] == n[i + 3];
      assert DotDotAt(n, i + 1);
    }
    if EndsWith(n, "/..") {
      var w := n[|n| - 3..];
      assert w[0] == n[|n| - 3] && w[1] == n[|n| - 2] && w[2] == n[|n| - 1];
      assert DotDotAt(n, |n| - 2);
    }
  }

  /** The four string tests together say exactly that some component is `..`. */
  lemma EscapesIffDotDotComponent(path: string)
    ensures Escapes(path) <==> ".." in Components(NormalizeRelative(path))
  {
    var n := NormalizeRelative(path);
    EscapesFindsDotDot(n);
    if ".." in Components(n) {
      ComponentStands(n);
    }
    if i :| DotDotAt(n, i) {
      StandingIsComponent(n, i);
    }
  }

  // ---- candidate names -------------------------------------------------------------------

  predicate PlainName(name: string) {
    '/' !in name && '\\' !in name
  }

  lemma CandidateNamePlain(fileName: string, k: nat)
    requires PlainName(fileName) && fileName != ".."
    ensures PlainName(CandidateName(fileName, k)) && CandidateName(fileName, k) != ".."
    ensures fileName != "" ==> CandidateName(fileName, k) != ""
  {
    if k > 0 {
      var name, digits := CandidateName(fileName, k), Decimal.Render(k);
      assert name[|Base(fileName)|] == '-';
      forall i | 0 <= i < |digits|
        ensures digits[i] != '/' && digits[i] != '\\'
      {
        assert Decimal.IsDigit(digits[i]);
      }
    }
  }

  /** `ext` is the part of a name from its last dot on; it is empty when there is none. */
  predicate DotSplits(fileName: string, base: string, ext: string) {
    fileName == base + ext && if ext == "" then '.' !in base else ext[0] == '.' && '.' !in ext[1..]
  }

  lemma SplitsAtLastDot(fileName: string, base: string, ext: string)
    requires DotSplits(fileName, base, ext)
    ensures Base(fileName) == base && Extension(fileName) == ext
  {
    if ext != "" {
      assert fileName[|base|] == '.';
      assert forall j :: |base| < j < |fileName| ==> fileName[j] == ext[1..][j - |base| - 1];
      assert LastIndexOf(fileName, '.') == |base|;
    }
  }

  /** The first probe is the name itself below the named directory; probe `k` puts the number in
      front of the last dot, or at the end of a name without one. */
  lemma CandidateShape(directory: string, own: string, fileName: string, base: string, ext: string, k: nat)
    requires NamesDirectory(directory, own)
    requires DotSplits(fileName, base, ext)
    ensures Candidate(directory, fileName, 0) == own + "/" + fileName
    ensures k > 0 ==> Candidate(directory, fileName, k) == own + "/" + (base + "-" + Decimal.Render(k) + ext)
  {
    StemIsOwn(directory, own);
    SplitsAtLastDot(fileName, base, ext);
  }

  lemma StemIsOwn(directory: string, own: string)
    requires NamesDirectory(directory, own)
    ensures Stem(directory) == own
  {
    if Normalized(directory, own + "/") {
      NormalizedIs(directory, own + "/");
      EndsInSlash(own + "/");
    } else {
      NormalizedIs(directory, own);
      EndsInSlash(own);
    }
  }

  /** The file name is what follows the last slash. */
  lemma FileNameFollowsLastSlash(directory: string, name: string)
    requires '/' !in name
    ensures FileName(name) == name && FileName(directory + "/" + name) == name
  {
    var path := directory + "/" + name;
    assert path[|directory|] == '/';
    assert forall j :: |directory| < j < |path| ==> path[j] == name[j - |directory| - 1];
    assert LastIndexOf(path, '/') == |directory| && path[|directory| + 1..] == name;
  }

  /** Every probe tries a new name. */
  lemma CandidateInjective(directory: string, fileName: string, j: nat, k: nat)
    requires Candidate(directory, fileName, j) == Candidate(directory, fileName, k)
    ensures j == k
  {
    var d, b, e := Stem(directory) + "/", Base(fileName), Extension(fileName);
    var x, y := CandidateName(fileName, j), CandidateName(fileName, k);
    assert x == (d + x)[|d|..] && y == (d + y)[|d|..];
    assert fileName == b + e;
    if j > 0 && k > 0 {
      var m, n := Decimal.Render(j), Decimal.Render(k);
      assert |m| == |n|;
      assert m == x[|b| + 1..|b| + 1 + |m|] && n == y[|b| + 1..|b| + 1 + |n|];
      Decimal.RenderInjective(j, k);
    }
  }

  // ---- where a candidate lies ------------------------------------------------------------

  lemma StemComponents(directory: string)
    requires !Escapes(directory)
    ensures ".." !in Components(Stem(directory))
  {
    var n := NormalizeRelative(directory);
    EscapesIffDotDotComponent(directory);
    if EndsWith(n, "/") {
      assert n[|n| - 1..] == "/" && LastIndexOf(n, '/') == |n| - 1;
    }
  }

  lemma JoinComponents(stem: string, name: string)
    requires '/' !in name
    ensures Components(stem + "/" + name) == Components(stem) + [name]
  {
    var path := stem + "/" + name;
    var i := LastIndexOf(path, '/');
    assert path[|stem|] == '/';
    assert forall j :: |stem| < j < |path| ==> path[j] == name[j - |stem| - 1];
    assert path[..i] == stem && path[i + 1..] == name;
  }

  /** Whatever the directory and file name, a candidate of a non-escaping directory has no `..`
      component. */
  lemma CandidateDoesNotEscape(directory: string, fileName: string, k: nat)
    requires !Escapes(directory) && PlainName(fileName) && fileName != ".."
    ensures !Escapes(Candidate(directory, fileName, k))
  {
    var stem, name := Stem(directory), CandidateName(fileName, k);
    var path := stem + "/" + name;
    CandidateNamePlain(fileName, k);
    NormalForm(directory);
    StemComponents(directory);
    JoinComponents(stem, name);
    EscapesIffDotDotComponent(path);
    if stem == "" {
      assert Slashes(path) == path;
      assert path[1..] == name;
      assert StripLeading(name) == name;
      assert LastIndexOf(name, '/') == -1;
      assert Components(name) == [name];
    } else {
      AlreadyNormal(path);
    }
  }

  /** A grant prefix that names a directory and does not end in a doubled slash. */
  predicate Tidy(prefix: string) {
    Clean(prefix) != "/" && !EndsWith(Clean(prefix), "//")
  }

  lemma DoubledSlash(s: string)
    ensures |s| >= 2 && s[|s| - 2] == s[|s| - 1] == '/' ==> EndsWith(s, "//")
  {
  }

  lemma TidyPrefixContains(prefix: string, directory: string, name: string)
    requires Tidy(prefix) && PlainName(name) && WithinPrefix(directory, prefix)
    ensures WithinPrefix(Stem(directory) + "/" + name, prefix)
  {
    var n, clean, stem := NormalizeRelative(directory), Clean(prefix), Stem(directory);
    var path := stem + "/" + name;
    NormalForm(directory);
    assert clean[|clean| - 1..] == "/";
    assert clean[|clean| - 1] == '/';
    if EndsWith(n, "/") {
      assert n[|n| - 1] == n[|n| - 1..][0];
      assert n == stem + "/";
      DoubledSlash(clean);
      assert clean <= n;
      assert path == n + name;
    } else {
      if n == clean[..|clean| - 1] {
        assert clean == n + "/";
      }
      assert path == n + ("/" + name);
      assert clean <= n + "/";
    }
    assert stem == "" ==> clean == "/";
    AlreadyNormal(path);
  }

  /** The file name the mover appends to every directory. */
  function Joined(directory: string, name: string): string {
    Stem(directory) + "/" + name
  }

  lemma CleanEnds(prefix: string)
    ensures Clean(prefix) != "" && Clean(prefix)[|Clean(prefix)| - 1] == '/'
  {
    var clean := Clean(prefix);
    assert clean[|clean| - 1..] == "/";
  }

  /** The directory a prefix leaks from is its own slash-terminated form without the last slash. */
  lemma LeakingDirectory(prefix: string)
    ensures var clean := Clean(prefix);
            var directory := clean[..|clean| - 1];
            NormalizeRelative(directory) == directory && WithinPrefix(directory, prefix)
  {
    var clean := Clean(prefix);
    var directory := clean[..|clean| - 1];
    NormalForm(prefix);
    if directory != "" {
      var n := NormalizeRelative(prefix);
      assert n != "" && directory[0] == n[0];
    }
    AlreadyNormal(directory);
  }

  lemma LeakedPath(prefix: string, name: string)
    requires PlainName(name) && name != "" && (Clean(prefix) == "/" || EndsWith(Clean(prefix), "//"))
    ensures var directory := Clean(prefix)[..|Clean(prefix)| - 1];
            NormalizeRelative(Joined(directory, name)) == directory + name
  {
    var clean := Clean(prefix);
    var directory := clean[..|clean| - 1];
    LeakingDirectory(prefix);
    if clean == "/" {
      var path := Joined(directory, name);
      assert path == "/" + name && Slashes(path) == path && path[1..] == name;
      assert StripLeading(path) == StripLeading(name);
      StripLeadingFixes(name);
    } else {
      assert clean[|clean| - 2..] == "//";
      assert directory[|directory| - 1..] == "/";
      NormalForm(directory);
      assert Joined(directory, name) == directory + name;
      AlreadyNormal(directory + name);
    }
  }

  ghost predicate PrefixContains(prefix: string) {
    forall directory: string, name: string ::
      PlainName(name) && name != "" && WithinPrefix(directory, prefix) ==> WithinPrefix(Joined(directory, name), prefix)
  }

  lemma UntidyPrefixLeaks(prefix: string, name: string)
    requires !Tidy(prefix) && PlainName(name) && name == "x"
    ensures !PrefixContains(prefix)
  {
    var clean := Clean(prefix);
    var directory := clean[..|clean| - 1];
    LeakingDirectory(prefix);
    LeakedPath(prefix, name);
    CleanEnds(prefix);
    assert (directory + name)[|clean| - 1] == 'x';
    assert !WithinPrefix(Joined(directory, name), prefix);
  }

  lemma TidyPrefixKeeps(prefix: string)
    requires Tidy(prefix)
    ensures PrefixContains(prefix)
  {
    forall directory: string, name: string | PlainName(name) && name != "" && WithinPrefix(directory, prefix)
      ensures WithinPrefix(Joined(directory, name), prefix)
    {
      TidyPrefixContains(prefix, directory, name);
    }
  }

  /** A prefix alone keeps every planned file inside it exactly when it is tidy. The code asks this
      of no one: the empty prefix and prefixes with a doubled trailing slash let files out. */
  lemma PrefixContainsIffTidy(prefix: string)
    ensures PrefixContains(prefix) <==> Tidy(prefix)
  {
    if Tidy(prefix) {
      TidyPrefixKeeps(prefix);
    } else {
      UntidyPrefixLeaks(prefix, "x");
    }
  }
}
