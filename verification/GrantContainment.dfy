/** When a grant, a list of prefixes, contains what is planned below the directories it admits. The
    argument is about normalised paths and slash-terminated prefixes, so it comes first on those. */
module GrantContainment {
  import opened RelativePaths

  // ---- normalised paths and slash-terminated prefixes ------------------------------------

  predicate Slashed(c: string) {
    c != "" && c[|c| - 1] == '/'
  }

  function Unslashed(c: string): string
    requires c != ""
  {
    c[..|c| - 1]
  }

  predicate DoublySlashed(c: string) {
    |c| >= 2 && c[|c| - 2] == c[|c| - 1] == '/'
  }

  predicate Inside(n: string, c: string)
    requires c != ""
  {
    n == Unslashed(c) || c <= n
  }

  ghost predicate AllSlashed(cleans: seq<string>) {
    forall i :: 0 <= i < |cleans| ==> Slashed(cleans[i])
  }

  ghost predicate InsideSome(n: string, cleans: seq<string>)
    requires AllSlashed(cleans)
  {
    exists i :: 0 <= i < |cleans| && Inside(n, cleans[i])
  }

  /** A file below a normalised directory. */
  function Below(n: string, name: string): string {
    if n == "" then name else if Slashed(n) then n + name else n + "/" + name
  }

  ghost predicate Covered(c: string, cleans: seq<string>)
    requires c != ""
  {
    exists j :: 0 <= j < |cleans| && cleans[j] <= Unslashed(c)
  }

  /** The prefix keeps what is put into the directory it is named after. */
  ghost predicate KeepsOwn(c: string, cleans: seq<string>)
    requires c != ""
  {
    c != "/" && (DoublySlashed(c) ==> Covered(c, cleans))
  }

  lemma LongerIsInside(n: string, c: string, name: string)
    requires Slashed(c) && c <= n
    ensures c <= Below(n, name)
  {
  }

  /** What is put into a directory inside a prefix stays inside, unless it is the directory the
      prefix is named after and the prefix does not keep its own. */
  lemma BelowStaysInside(cleans: seq<string>, i: nat, n: string, name: string)
    requires AllSlashed(cleans) && i < |cleans| && Inside(n, cleans[i])
    requires n == Unslashed(cleans[i]) ==> KeepsOwn(cleans[i], cleans)
    ensures InsideSome(Below(n, name), cleans)
  {
    var c := cleans[i];
    assert Slashed(c);
    if c <= n {
      LongerIsInside(n, c, name);
      assert Inside(Below(n, name), cleans[i]);
    } else if Slashed(n) {
      assert DoublySlashed(c);
      var j :| 0 <= j < |cleans| && cleans[j] <= Unslashed(c);
      assert Slashed(cleans[j]);
      LongerIsInside(n, cleans[j], name);
      assert Inside(Below(n, name), cleans[j]);
    } else {
      assert n != "";
      assert c == n + "/";
      assert Inside(Below(n, name), cleans[i]);
    }
  }

  /** A name that no prefix is named after and that holds no slash is inside a prefix only by the
      directory it is put into. */
  lemma PlainInside(c: string, n: string, name: string)
    requires Slashed(c) && '/' !in name && (n == "" || Slashed(n))
    requires Below(n, name) != Unslashed(c) && Inside(Below(n, name), c)
    ensures c <= n
  {
    var path := Below(n, name);
    assert c <= path && path[|c| - 1] == '/';
    assert path == n + name;
    assert forall k :: |n| <= k < |path| ==> path[k] == name[k - |n|];
  }

  lemma BelowLeaks(cleans: seq<string>, i: nat, name: string)
    requires AllSlashed(cleans) && i < |cleans| && '/' !in name
    requires !KeepsOwn(cleans[i], cleans)
    requires forall j :: 0 <= j < |cleans| ==> Below(Unslashed(cleans[i]), name) != Unslashed(cleans[j])
    ensures !InsideSome(Below(Unslashed(cleans[i]), name), cleans)
  {
    var n := Unslashed(cleans[i]);
    assert Slashed(cleans[i]);
    forall j | 0 <= j < |cleans|
      ensures !Inside(Below(n, name), cleans[j])
    {
      assert Slashed(cleans[j]);
      if Inside(Below(n, name), cleans[j]) {
        PlainInside(cleans[j], n, name);
        NothingBelow(cleans, i, j);
      }
    }
  }

  lemma NothingBelow(cleans: seq<string>, i: nat, j: nat)
    requires AllSlashed(cleans) && i < |cleans| && j < |cleans|
    requires !KeepsOwn(cleans[i], cleans)
    ensures !(cleans[j] <= Unslashed(cleans[i]))
  {
    assert Slashed(cleans[i]) && Slashed(cleans[j]);
  }

  function TotalLength(strings: seq<string>): nat {
    if strings == [] then 0 else TotalLength(strings[1..]) + |strings[0]|
  }

  lemma {:induction false} TotalIsNoShorter(strings: seq<string>, i: nat)
    requires i < |strings|
    ensures |strings[i]| <= TotalLength(strings)
  {
    if i > 0 {
      TotalIsNoShorter(strings[1..], i - 1);
    }
  }

  /** A plain name longer than every prefix. */
  lemma LongName(cleans: seq<string>) returns (name: string)
    ensures PlainName(name) && name != "" && name != ".."
    ensures forall i :: 0 <= i < |cleans| ==> |name| > |cleans[i]|
  {
    name := seq(TotalLength(cleans) + 1, _ => 'x');
    assert name[0] == 'x';
    forall i | 0 <= i < |cleans|
      ensures |name| > |cleans[i]|
    {
      TotalIsNoShorter(cleans, i);
    }
  }

  // ---- grants ----------------------------------------------------------------------------

  function Cleans(prefixes: seq<string>): (cleans: seq<string>)
    ensures |cleans| == |prefixes|
    ensures forall i :: 0 <= i < |prefixes| ==> cleans[i] == Clean(prefixes[i])
  {
    seq(|prefixes|, i requires 0 <= i < |prefixes| => Clean(prefixes[i]))
  }

  lemma CleansAreSlashed(prefixes: seq<string>)
    ensures AllSlashed(Cleans(prefixes))
  {
    forall i | 0 <= i < |prefixes|
      ensures Slashed(Cleans(prefixes)[i])
    {
      CleanEnds(prefixes[i]);
    }
  }

  /** Planning refuses every other directory before it looks at the grant. */
  predicate Usable(directory: string) {
    !IsAbsolute(directory) && !Escapes(directory)
  }

  /** Every prefix that is named after a usable directory keeps what is put into it: it is not the
      empty one, and if it ends in a doubled slash another prefix covers it. */
  ghost predicate TidyGrant(prefixes: seq<string>) {
    var cleans := Cleans(prefixes);
    forall i :: 0 <= i < |cleans| && cleans[i] != "" && Usable(Unslashed(cleans[i])) ==> KeepsOwn(cleans[i], cleans)
  }

  lemma WithinPrefixIsInside(path: string, prefix: string)
    ensures Slashed(Clean(prefix))
    ensures WithinPrefix(path, prefix) <==> Inside(NormalizeRelative(path), Clean(prefix))
  {
    CleanEnds(prefix);
  }

  lemma WithinGivesInside(path: string, prefixes: seq<string>)
    requires AllSlashed(Cleans(prefixes)) && WithinGrant(path, prefixes)
    ensures InsideSome(NormalizeRelative(path), Cleans(prefixes))
  {
    var i :| 0 <= i < |prefixes| && WithinPrefix(path, prefixes[i]);
    WithinPrefixIsInside(path, prefixes[i]);
    assert Inside(NormalizeRelative(path), Cleans(prefixes)[i]);
  }

  lemma InsideGivesWithin(path: string, prefixes: seq<string>)
    requires AllSlashed(Cleans(prefixes)) && InsideSome(NormalizeRelative(path), Cleans(prefixes))
    ensures WithinGrant(path, prefixes)
  {
    var cleans := Cleans(prefixes);
    var i :| 0 <= i < |cleans| && Inside(NormalizeRelative(path), cleans[i]);
    WithinPrefixIsInside(path, prefixes[i]);
    assert WithinPrefix(path, prefixes[i]);
  }

  lemma WithinIsInside(path: string, prefixes: seq<string>)
    ensures AllSlashed(Cleans(prefixes))
    ensures WithinGrant(path, prefixes) <==> InsideSome(NormalizeRelative(path), Cleans(prefixes))
  {
    CleansAreSlashed(prefixes);
    if WithinGrant(path, prefixes) {
      WithinGivesInside(path, prefixes);
    }
    if InsideSome(NormalizeRelative(path), Cleans(prefixes)) {
      InsideGivesWithin(path, prefixes);
    }
  }

  lemma JoinedIsBelow(directory: string, name: string)
    requires PlainName(name)
    ensures NormalizeRelative(Joined(directory, name)) == Below(NormalizeRelative(directory), name)
  {
    var n, stem := NormalizeRelative(directory), Stem(directory);
    assert '\\' !in n by { NormalForm(directory); }
    if n == "" {
      assert Joined(directory, name) == "/" + name;
      SlashedName(name);
    } else {
      if Slashed(n) {
        assert n[|n| - 1..] == "/" && n == stem + "/";
      } else {
        assert !EndsWith(n, "/");
      }
      assert Joined(directory, name) == Below(n, name);
      AlreadyNormal(Joined(directory, name));
    }
  }

  lemma SlashedName(name: string)
    requires PlainName(name)
    ensures NormalizeRelative("/" + name) == name
  {
    var path := "/" + name;
    assert Slashes(path) == path && path[1..] == name;
    assert StripLeading(path) == StripLeading(name);
    StripLeadingFixes(name);
  }

  lemma UsableIsTurned(directory: string)
    requires !IsAbsolute(directory)
    ensures NormalizeRelative(directory) == Slashes(directory)
    ensures !IsAbsolute(NormalizeRelative(directory))
  {
    assert Slashes(directory) != "" ==> Slashes(directory)[0] != '/';
    StripLeadingFixes(Slashes(directory));
  }

  lemma NormalStaysUsable(directory: string)
    requires Usable(directory)
    ensures Usable(NormalizeRelative(directory))
  {
    UsableIsTurned(directory);
    NormalForm(directory);
    EscapesIffDotDotComponent(directory);
    EscapesIffDotDotComponent(NormalizeRelative(directory));
  }

  lemma TidyCleansKeep(cleans: seq<string>, n: string, name: string)
    requires AllSlashed(cleans) && InsideSome(n, cleans)
    requires forall i :: 0 <= i < |cleans| && n == Unslashed(cleans[i]) ==> KeepsOwn(cleans[i], cleans)
    ensures InsideSome(Below(n, name), cleans)
  {
    var i :| 0 <= i < |cleans| && Inside(n, cleans[i]);
    BelowStaysInside(cleans, i, n, name);
  }

  lemma TidyKeepsUsable(prefixes: seq<string>, n: string)
    requires TidyGrant(prefixes) && Usable(n) && AllSlashed(Cleans(prefixes))
    ensures var cleans := Cleans(prefixes);
            forall i :: 0 <= i < |cleans| && n == Unslashed(cleans[i]) ==> KeepsOwn(cleans[i], cleans)
  {
  }

  /** Under a tidy grant a plain name below a usable contained directory stays inside. */
  lemma TidyGrantContains(prefixes: seq<string>, directory: string, name: string)
    requires TidyGrant(prefixes) && Usable(directory) && WithinGrant(directory, prefixes) && PlainName(name)
    ensures WithinGrant(Joined(directory, name), prefixes)
  {
    var n := NormalizeRelative(directory);
    CleansAreSlashed(prefixes);
    WithinGivesInside(directory, prefixes);
    assert Usable(n) by { NormalStaysUsable(directory); }
    TidyKeepsUsable(prefixes, n);
    TidyCleansKeep(Cleans(prefixes), n, name);
    JoinedIsBelow(directory, name);
    InsideGivesWithin(Joined(directory, name), prefixes);
  }

  lemma OwnDirectory(prefixes: seq<string>, i: nat)
    requires i < |prefixes|
    ensures AllSlashed(Cleans(prefixes))
    ensures var n := Unslashed(Cleans(prefixes)[i]);
            NormalizeRelative(n) == n && WithinGrant(n, prefixes)
  {
    CleansAreSlashed(prefixes);
    assert Slashed(Cleans(prefixes)[i]);
    LeakingDirectory(prefixes[i]);
    WithinIsInside(Unslashed(Cleans(prefixes)[i]), prefixes);
    assert Inside(Unslashed(Cleans(prefixes)[i]), Cleans(prefixes)[i]);
  }

  /** A plain name that no prefix is named after leaves the grant from a directory that its prefix
      does not keep. */
  lemma UntidyGrantLeaks(prefixes: seq<string>, i: nat, name: string)
    requires i < |prefixes| && PlainName(name) && Cleans(prefixes)[i] != "" && AllSlashed(Cleans(prefixes))
    requires !KeepsOwn(Cleans(prefixes)[i], Cleans(prefixes))
    requires forall j :: 0 <= j < |prefixes| ==> Below(Unslashed(Cleans(prefixes)[i]), name) != Unslashed(Cleans(prefixes)[j])
    ensures !WithinGrant(Joined(Unslashed(Cleans(prefixes)[i]), name), prefixes)
  {
    var cleans := Cleans(prefixes);
    var n := Unslashed(cleans[i]);
    OwnDirectory(prefixes, i);
    BelowLeaks(cleans, i, name);
    JoinedIsBelow(n, name);
    WithinIsInside(Joined(n, name), prefixes);
  }

  lemma LongNameIsNoPrefix(cleans: seq<string>, n: string, name: string)
    requires AllSlashed(cleans) && forall j :: 0 <= j < |cleans| ==> |name| > |cleans[j]|
    ensures forall j :: 0 <= j < |cleans| ==> Below(n, name) != Unslashed(cleans[j])
  {
    assert |Below(n, name)| >= |name|;
    forall j | 0 <= j < |cleans|
      ensures |Below(n, name)| > |Unslashed(cleans[j])|
    {
      assert Slashed(cleans[j]);
    }
  }

  ghost predicate GrantContains(prefixes: seq<string>) {
    forall directory: string, name: string ::
      PlainName(name) && name != "" && Usable(directory) && WithinGrant(directory, prefixes)
      ==> WithinGrant(Joined(directory, name), prefixes)
  }

  /** A grant keeps every named file of every contained directory that is neither absolute nor
      escaping if and only if it is tidy. */
  lemma GrantContainsIffTidy(prefixes: seq<string>)
    ensures GrantContains(prefixes) <==> TidyGrant(prefixes)
  {
    if TidyGrant(prefixes) {
      forall directory: string, name: string
        | PlainName(name) && name != "" && Usable(directory) && WithinGrant(directory, prefixes)
        ensures WithinGrant(Joined(directory, name), prefixes)
      {
        TidyGrantContains(prefixes, directory, name);
      }
    } else {
      UntidyGrantLoses(prefixes);
    }
  }

  lemma UntidyGrantLoses(prefixes: seq<string>)
    requires !TidyGrant(prefixes)
    ensures !GrantContains(prefixes)
  {
    var cleans := Cleans(prefixes);
    CleansAreSlashed(prefixes);
    var i :| 0 <= i < |cleans| && cleans[i] != "" && Usable(Unslashed(cleans[i])) && !KeepsOwn(cleans[i], cleans);
    var name := LongName(cleans);
    LongNameIsNoPrefix(cleans, Unslashed(cleans[i]), name);
    OwnDirectory(prefixes, i);
    UntidyGrantLeaks(prefixes, i, name);
  }

  // ---- three grants ----------------------------------------------------------------------

  lemma CleanIn()
    ensures Clean("in") == "in/"
  {
    AlreadyNormal("in");
  }

  lemma CleanSlashed(prefix: string)
    requires '\\' !in prefix && Slashed(prefix) && prefix[0] != '/'
    ensures Clean(prefix) == prefix
  {
    AlreadyNormal(prefix);
    assert prefix[|prefix| - 1..] == "/";
  }

  lemma InIsUsable()
    ensures Usable("in/")
  {
    AlreadyNormal("in/");
    EscapesFindsDotDot("in/");
  }

  lemma AboveIsNotUsable(directory: string)
    requires directory == "../"
    ensures !Usable(directory)
  {
    AlreadyNormal(directory);
  }

  lemma CleansOfPair(first: string, second: string, cleanFirst: string, cleanSecond: string)
    requires Clean(first) == cleanFirst && Clean(second) == cleanSecond
    ensures Cleans([first, second]) == [cleanFirst, cleanSecond]
  {
  }

  lemma TidyPair(prefixes: seq<string>, first: string, second: string)
    requires |prefixes| == 2 && Cleans(prefixes) == [first, second] && Slashed(first) && Slashed(second)
    requires KeepsOwn(first, [first, second])
    requires !Usable(Unslashed(second)) || KeepsOwn(second, [first, second])
    ensures TidyGrant(prefixes)
  {
  }

  /** `in` covers `in//`. */
  lemma CoveredDoubledSlash(first: string, second: string)
    requires first == "in" && second == "in//"
    ensures TidyGrant([first, second])
  {
    CleanIn();
    CleanSlashed(second);
    var kept := Clean(first);
    CleansOfPair(first, second, kept, second);
    assert Unslashed(second) == kept;
    assert [kept, second][0] <= Unslashed(second);
    assert KeepsOwn(kept, [kept, second]);
    TidyPair([first, second], kept, second);
  }

  /** Alone, `in//` lets files out of the directory `in/`. */
  lemma LoneDoubledSlash(prefix: string)
    requires prefix == "in//"
    ensures !TidyGrant([prefix])
  {
    CleanSlashed(prefix);
    var cleans := Cleans([prefix]);
    assert cleans == [prefix] && Unslashed(prefix) == "in/";
    InIsUsable();
    assert !Covered(prefix, cleans);
    assert !KeepsOwn(cleans[0], cleans);
  }

  /** No accepted directory is `../`, so `..//` does no harm. */
  lemma UnusableDoubledSlash(first: string, second: string, own: string)
    requires first == "in" && second == own + "/" && own == "../"
    ensures TidyGrant([first, second])
  {
    CleanIn();
    CleanSlashed(second);
    var kept := Clean(first);
    CleansOfPair(first, second, kept, second);
    AboveIsNotUsable(own);
    assert Unslashed(second) == own;
    assert KeepsOwn(kept, [kept, second]);
    TidyPair([first, second], kept, second);
  }
}
