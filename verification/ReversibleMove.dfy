/** The reversible file move: plan, commit and undo, one file-system step at a time, over a disk
    whose writes and renames may leave other bytes than the ones asked for. */
module ReversibleMove {
  import opened Common
  import opened RelativePaths
  import opened GrantContainment
  import Decimal

  type Bytes = seq<bv8>
  type Files = map<string, Bytes>

  datatype Problem =
    | PathEscape | AbsolutePath | DestinationOutsideGrant | SourceMissing | SourceChanged
    | DestinationCollision | VerifyFailed | UnknownPlan | UnknownReceipt

  datatype MovePlan = MovePlan(
    planId: string,
    bindingId: string,
    relativeSource: string,
    relativeDestinationDirectory: string,
    relativeDestination: string,
    sourceFingerprint: string)

  datatype MoveReceipt = MoveReceipt(
    receiptId: string,
    planId: string,
    bindingId: string,
    relativeSource: string,
    relativeDestination: string,
    sourceFingerprint: string)

  /** The file-system port. `history` records every state the files have been in. */
  class FileSystem {
    var files: Files
    ghost var history: seq<Files>

    constructor (initial: Files)
      ensures files == initial && history == []
    {
      files, history := initial, [];
    }

    method Exists(path: string) returns (b: bool)
      ensures b <==> path in files
    {
      b := path in files;
    }

    method ReadBytes(path: string) returns (bytes: Bytes)
      requires path in files
      ensures bytes == files[path]
    {
      bytes := files[path];
    }

    /** `stored` is what the disk keeps of the bytes it was asked to write. */
    method WriteBytes(path: string, bytes: Bytes, stored: Bytes)
      modifies this
      ensures files == old(files)[path := stored] && history == old(history) + [files]
    {
      files := files[path := stored];
      history := history + [files];
    }

    method Remove(path: string)
      modifies this
      ensures files == old(files) - {path} && history == old(history) + [files]
    {
      files := files - {path};
      history := history + [files];
    }

    /** `landed` is what stands at the target afterwards. */
    method Rename(from: string, to: string, landed: Bytes)
      requires from in files
      modifies this
      ensures files == (old(files) - {from})[to := landed] && history == old(history) + [files]
    {
      files := (files - {from})[to := landed];
      history := history + [files];
    }
  }

  // ---- choosing a destination ------------------------------------------------------------

  /** `k` is the first probe that finds nothing. */
  ghost predicate FirstFree(files: Files, directory: string, fileName: string, k: nat) {
    && Candidate(directory, fileName, k) !in files
    && forall j :: 0 <= j < k ==> Candidate(directory, fileName, j) in files
  }

  ghost function Tried(directory: string, fileName: string, n: nat): set<string> {
    set k | 0 <= k < n :: Candidate(directory, fileName, k)
  }

  lemma NextProbeIsNew(directory: string, fileName: string, n: nat)
    ensures Candidate(directory, fileName, n) !in Tried(directory, fileName, n)
  {
    forall k: nat | k < n
      ensures Candidate(directory, fileName, k) != Candidate(directory, fileName, n)
    {
      if Candidate(directory, fileName, k) == Candidate(directory, fileName, n) {
        CandidateInjective(directory, fileName, k, n);
      }
    }
  }

  lemma TriedOneMore(directory: string, fileName: string, n: nat)
    ensures Tried(directory, fileName, n + 1) == Tried(directory, fileName, n) + {Candidate(directory, fileName, n)}
  {
  }

  lemma {:induction false} TriedAreDistinct(directory: string, fileName: string, n: nat)
    ensures |Tried(directory, fileName, n)| == n
  {
    if n > 0 {
      TriedAreDistinct(directory, fileName, n - 1);
      NextProbeIsNew(directory, fileName, n - 1);
      TriedOneMore(directory, fileName, n - 1);
    }
  }

  lemma SubsetIsNoLarger<T>(a: set<T>, b: set<T>)
    requires a <= b
    ensures |a| <= |b|
  {
    assert b == a + (b - a);
  }

  /** Pigeonhole: among the first `|files| + 1` probes one is free. */
  lemma FirstFreeExists(files: Files, directory: string, fileName: string) returns (k: nat)
    ensures k <= |files| && FirstFree(files, directory, fileName, k)
  {
    k := 0;
    while Candidate(directory, fileName, k) in files
      invariant k <= |files|
      invariant forall j :: 0 <= j < k ==> Candidate(directory, fileName, j) in files
      decreases |files| - k
    {
      k := k + 1;
      TriedAreDistinct(directory, fileName, k);
      SubsetIsNoLarger(Tried(directory, fileName, k), files.Keys);
    }
  }

  /** Probes until a name is free; it stops within `|files| + 1` probes. */
  method UniqueDestination(fs: FileSystem, directory: string, fileName: string)
    returns (candidate: string, ghost probes: nat)
    ensures probes <= |fs.files| + 1
    ensures candidate !in fs.files
    ensures probes > 0 && candidate == Candidate(directory, fileName, probes - 1)
    ensures FirstFree(fs.files, directory, fileName, probes - 1)
  {
    ghost var free := FirstFreeExists(fs.files, directory, fileName);
    var normalizedDir, base, ext := Stem(directory), Base(fileName), Extension(fileName);
    candidate := normalizedDir + "/" + fileName;
    var index := 1;
    probes := 1;
    var taken := fs.Exists(candidate);
    while taken
      invariant 1 <= index == probes <= free + 1
      invariant candidate == Candidate(directory, fileName, index - 1)
      invariant forall j :: 0 <= j < index - 1 ==> Candidate(directory, fileName, j) in fs.files
      invariant taken <==> candidate in fs.files
      decreases free + 1 - index
    {
      candidate := normalizedDir + "/" + (base + "-" + Decimal.Render(index) + ext);
      index := index + 1;
      probes := probes + 1;
      taken := fs.Exists(candidate);
    }
  }

  // ---- planning --------------------------------------------------------------------------

  /** The first guard a request fails, if any. */
  function PlanProblem(files: Option<Files>, source: string, directory: string, prefixes: seq<string>)
    : Option<Problem>
  {
    if IsAbsolute(source) || IsAbsolute(directory) then Some(AbsolutePath)
    else if Escapes(source) || Escapes(directory) then Some(PathEscape)
    else if !WithinGrant(NormalizeRelative(source), prefixes) || !WithinGrant(NormalizeRelative(directory), prefixes)
      then Some(DestinationOutsideGrant)
    else if files.None? || NormalizeRelative(source) !in files.value then Some(SourceMissing)
    else None
  }

  /** `plan` previews moving `source` into `directory` under the first name that is free. */
  ghost predicate Plans(files: Files, fingerprint: Bytes -> string, source: string, directory: string,
                        plan: MovePlan, k: int)
  {
    var relativeSource, relativeDirectory := NormalizeRelative(source), NormalizeRelative(directory);
    && k >= 0 && relativeSource in files
    && plan.relativeSource == relativeSource
    && plan.relativeDestinationDirectory == relativeDirectory
    && plan.sourceFingerprint == fingerprint(files[relativeSource])
    && plan.relativeDestination == Candidate(relativeDirectory, FileName(relativeSource), k)
    && FirstFree(files, relativeDirectory, FileName(relativeSource), k)
  }

  method PlanMove(fs: FileSystem?, fingerprint: Bytes -> string, bindingId: string, source: string,
                  directory: string, prefixes: seq<string>, planId: string)
    returns (r: Result<MovePlan, Problem>)
    ensures var problem := PlanProblem(if fs == null then None else Some(fs.files), source, directory, prefixes);
            match r
            case Rejected(code) => problem == Some(code)
            case Accepted(plan) =>
              && problem == None && plan.planId == planId && plan.bindingId == bindingId
              && exists k :: 0 <= k <= |fs.files| && Plans(fs.files, fingerprint, source, directory, plan, k)
  {
    if IsAbsolute(source) || IsAbsolute(directory) {
      return Rejected(AbsolutePath);
    }
    if Escapes(source) || Escapes(directory) {
      return Rejected(PathEscape);
    }
    var relativeSource, relativeDirectory := NormalizeRelative(source), NormalizeRelative(directory);
    if !WithinGrant(relativeSource, prefixes) || !WithinGrant(relativeDirectory, prefixes) {
      return Rejected(DestinationOutsideGrant);
    }
    if fs == null {
      return Rejected(SourceMissing);
    }
    var present := fs.Exists(relativeSource);
    if !present {
      return Rejected(SourceMissing);
    }
    var bytes := fs.ReadBytes(relativeSource);
    var fileName := FileName(relativeSource);
    var destination, probes := UniqueDestination(fs, relativeDirectory, fileName);
    var plan := MovePlan(planId, bindingId, relativeSource, relativeDirectory, destination, fingerprint(bytes));
    assert Plans(fs.files, fingerprint, source, directory, plan, probes - 1);
    return Accepted(plan);
  }

  /** `n` lies in a directory that one of the prefixes names. */
  ghost predicate Granted(n: string, prefixes: seq<string>) {
    exists i :: 0 <= i < |prefixes| && Covers(prefixes[i], n)
  }

  /** A request passes the guards if and only if both paths are relative, neither has a `..`
      component, both lie in the grant and the source is there; otherwise it is refused with the
      first of these that fails. */
  lemma PlanAcceptedIff(files: Option<Files>, source: string, directory: string, prefixes: seq<string>, n: string, d: string)
    requires Normalized(source, n) && Normalized(directory, d)
    ensures var problem := PlanProblem(files, source, directory, prefixes);
            var relative := !AtRoot(source) && !AtRoot(directory);
            var contained := relative && ".." !in Components(n) && ".." !in Components(d);
            var granted := contained && Granted(n, prefixes) && Granted(d, prefixes);
            var present := granted && files.Some? && n in files.value;
            && (problem == None <==> present)
            && (problem == Some(AbsolutePath) <==> !relative)
            && (problem == Some(PathEscape) <==> relative && !contained)
            && (problem == Some(DestinationOutsideGrant) <==> contained && !granted)
            && (problem == Some(SourceMissing) <==> granted && !present)
  {
    AbsoluteIffAtRoot(source);
    AbsoluteIffAtRoot(directory);
    NormalizedIs(source, n);
    NormalizedIs(directory, d);
    EscapesIffDotDotComponent(source);
    EscapesIffDotDotComponent(directory);
    GrantedIff(n, prefixes);
    GrantedIff(d, prefixes);
  }

  lemma GrantedIff(n: string, prefixes: seq<string>)
    requires NormalizeRelative(n) == n
    ensures WithinGrant(n, prefixes) <==> Granted(n, prefixes)
  {
    forall i | 0 <= i < |prefixes|
      ensures WithinPrefix(n, prefixes[i]) <==> Covers(prefixes[i], n)
    {
      WithinPrefixIff(n, prefixes[i]);
    }
  }

  lemma SourceFileName(source: string)
    requires !Escapes(source)
    ensures var name := FileName(NormalizeRelative(source)); PlainName(name) && name != ".."
  {
    var n := NormalizeRelative(source);
    NormalForm(source);
    EscapesIffDotDotComponent(source);
    var c := Components(n);
    assert c[|c| - 1] == FileName(n) && FileName(n) in c;
  }

  /** For all strings: wherever the probing ends, a planned destination has no `..` component. */
  lemma PlannedDestinationDoesNotEscape(files: Files, source: string, directory: string, prefixes: seq<string>, k: nat)
    requires PlanProblem(Some(files), source, directory, prefixes).None?
    ensures !Escapes(Candidate(NormalizeRelative(directory), FileName(NormalizeRelative(source)), k))
  {
    SourceFileName(source);
    NormalForm(directory);
    CandidateDoesNotEscape(NormalizeRelative(directory), FileName(NormalizeRelative(source)), k);
  }

  /** For all strings: under a tidy grant the planned destination stays inside the grant. */
  lemma PlannedDestinationStaysInGrant(files: Files, source: string, directory: string, prefixes: seq<string>, k: nat)
    requires PlanProblem(Some(files), source, directory, prefixes).None?
    requires TidyGrant(prefixes)
    ensures WithinGrant(Candidate(NormalizeRelative(directory), FileName(NormalizeRelative(source)), k), prefixes)
  {
    var d, fileName := NormalizeRelative(directory), FileName(NormalizeRelative(source));
    SourceFileName(source);
    CandidateNamePlain(fileName, k);
    NormalStaysUsable(directory);
    NormalForm(directory);
    TidyGrantContains(prefixes, d, CandidateName(fileName, k));
  }

  /** Every accepted request, over whatever files, plans a destination inside the grant. */
  ghost predicate PlansStayInside(prefixes: seq<string>) {
    forall files: Files, source: string, directory: string, k: nat ::
      PlanProblem(Some(files), source, directory, prefixes).None?
      && FirstFree(files, NormalizeRelative(directory), FileName(NormalizeRelative(source)), k)
      ==> WithinGrant(Candidate(NormalizeRelative(directory), FileName(NormalizeRelative(source)), k), prefixes)
  }

  /** A file inside a doubly slashed prefix that a request may move. */
  lemma SourceInside(own: string, name: string)
    requires Usable(own) && NormalizeRelative(own) == own && Slashed(own) && PlainName(name) && name != ".."
    ensures var source := own + "/" + name;
            NormalizeRelative(source) == source && Usable(source) && FileName(source) == name
  {
    var source := own + "/" + name;
    NormalForm(own);
    AlreadyNormal(source);
    assert !IsAbsolute(source) by { AbsoluteBelow(own, name); }
    JoinComponents(own, name);
    EscapesIffDotDotComponent(own);
    EscapesIffDotDotComponent(source);
    FileNameFollowsLastSlash(own, name);
  }

  lemma RequestAccepted(files: Files, source: string, directory: string, prefixes: seq<string>)
    requires Usable(source) && Usable(directory)
    requires NormalizeRelative(source) == source && NormalizeRelative(directory) == directory
    requires WithinGrant(source, prefixes) && WithinGrant(directory, prefixes) && source in files
    ensures PlanProblem(Some(files), source, directory, prefixes) == None
  {
  }

  lemma PlanLeaves(files: Files, source: string, directory: string, prefixes: seq<string>, name: string, k: nat)
    requires PlanProblem(Some(files), source, directory, prefixes) == None
    requires NormalizeRelative(directory) == directory && FileName(NormalizeRelative(source)) == name
    requires FirstFree(files, directory, name, k) && !WithinGrant(Candidate(directory, name, k), prefixes)
    ensures !PlansStayInside(prefixes)
  {
  }

  lemma SourceWithin(prefixes: seq<string>, i: nat, source: string, name: string)
    requires i < |prefixes| && AllSlashed(Cleans(prefixes)) && Slashed(Cleans(prefixes)[i])
    requires source == Cleans(prefixes)[i] + name && NormalizeRelative(source) == source
    ensures WithinGrant(source, prefixes)
  {
    assert Inside(source, Cleans(prefixes)[i]);
    InsideGivesWithin(source, prefixes);
  }

  /** Moving `source`, below the prefix, into the prefix's own directory. */
  lemma MoveUpAccepted(prefixes: seq<string>, i: nat, own: string, name: string, source: string, files: Files)
    requires i < |prefixes| && AllSlashed(Cleans(prefixes)) && Slashed(Cleans(prefixes)[i])
    requires own == Unslashed(Cleans(prefixes)[i]) && Slashed(own) && Usable(own)
    requires PlainName(name) && name != ".." && source == own + "/" + name && source in files
    ensures NormalizeRelative(own) == own && FileName(NormalizeRelative(source)) == name
    ensures PlanProblem(Some(files), source, own, prefixes) == None
  {
    OwnDirectory(prefixes, i);
    SourceInside(own, name);
    assert source == Cleans(prefixes)[i] + name by { assert own + "/" == Cleans(prefixes)[i]; }
    SourceWithin(prefixes, i, source, name);
    RequestAccepted(files, source, own, prefixes);
  }

  lemma OwnProbe(own: string, name: string, source: string, files: Files)
    requires NormalizeRelative(own) == own && Slashed(own) && source == own + "/" + name && files == map[source := []]
    ensures Candidate(own, name, 0) == Joined(own, name) && FirstFree(files, own, name, 0)
  {
    CandidateOfOwn(own, name);
    assert |own + name| < |source|;
    FirstProbe(files, own, name, Stem(own) + "/" + name);
  }

  /** A prefix with a doubled slash that nothing covers lets a plan out: moving a long-named file
      from below the prefix into the directory the prefix is named after. */
  lemma UncoveredPlanLeaves(prefixes: seq<string>, i: nat)
    requires i < |prefixes| && AllSlashed(Cleans(prefixes)) && Slashed(Cleans(prefixes)[i])
    requires DoublySlashed(Cleans(prefixes)[i]) && !KeepsOwn(Cleans(prefixes)[i], Cleans(prefixes))
    requires Usable(Unslashed(Cleans(prefixes)[i]))
    ensures !PlansStayInside(prefixes)
  {
    var own := Unslashed(Cleans(prefixes)[i]);
    var name := LongName(Cleans(prefixes));
    var source := own + "/" + name;
    var files: Files := map[source := []];
    MoveUpAccepted(prefixes, i, own, name, source, files);
    OwnProbe(own, name, source, files);
    LongNameIsNoPrefix(Cleans(prefixes), own, name);
    UntidyGrantLeaks(prefixes, i, name);
    PlanLeaves(files, source, own, prefixes, name, 0);
  }

  lemma CandidateOfOwn(own: string, name: string)
    requires NormalizeRelative(own) == own && Slashed(own)
    ensures Candidate(own, name, 0) == own + name == Joined(own, name)
  {
    assert own[|own| - 1..] == "/";
    assert Stem(own) + "/" == own;
  }

  /** The paths of the names the prefixes are named after, at the top. */
  ghost function NamedAfter(cleans: seq<string>): set<string>
    requires AllSlashed(cleans)
  {
    set j | 0 <= j < |cleans| :: "/" + Unslashed(cleans[j])
  }

  lemma EmptyIsUsable(empty: string)
    requires empty == ""
    ensures NormalizeRelative(empty) == "" && Usable(empty) && FileName(empty) == "" && Stem(empty) == ""
  {
    AlreadyNormal(empty);
    EscapesFindsDotDot(empty);
  }

  /** Enough files with the names in front of probe `k` make it the first free one. */
  lemma FilesUpTo(directory: string, fileName: string, k: nat, source: string) returns (files: Files)
    requires source != Candidate(directory, fileName, k)
    ensures source in files && FirstFree(files, directory, fileName, k)
  {
    files := map p | p in Tried(directory, fileName, k) + {source} :: [];
    NextProbeIsNew(directory, fileName, k);
  }

  lemma NotNamedAfter(cleans: seq<string>, name: string)
    requires AllSlashed(cleans) && "/" + name !in NamedAfter(cleans)
    ensures forall j :: 0 <= j < |cleans| ==> name != Unslashed(cleans[j])
  {
    forall j | 0 <= j < |cleans|
      ensures name != Unslashed(cleans[j])
    {
      assert "/" + Unslashed(cleans[j]) in NamedAfter(cleans);
    }
  }

  /** A probe at the top whose name no prefix is named after. */
  lemma FreeOfPrefixes(cleans: seq<string>, i: nat, empty: string) returns (k: nat)
    requires AllSlashed(cleans) && i < |cleans| && Unslashed(cleans[i]) == empty == Stem(empty) && empty == ""
    ensures PlainName(CandidateName(empty, k)) && CandidateName(empty, k) != ""
    ensures forall j :: 0 <= j < |cleans| ==> CandidateName(empty, k) != Unslashed(cleans[j])
  {
    var blocked: Files := map p | p in NamedAfter(cleans) :: [];
    k := FirstFreeExists(blocked, empty, empty);
    var name := CandidateName(empty, k);
    assert Candidate(empty, empty, k) == "/" + name;
    NotNamedAfter(cleans, name);
    assert name != empty;
    CandidateNamePlain(empty, k);
  }

  lemma TopCandidate(empty: string, k: nat)
    requires empty == "" && Stem(empty) == ""
    ensures Candidate(empty, empty, k) == Joined(empty, CandidateName(empty, k)) != empty
    ensures Below(empty, CandidateName(empty, k)) == CandidateName(empty, k)
  {
  }

  lemma TopPlanLeaves(prefixes: seq<string>, i: nat, top: string, name: string, k: nat, files: Files)
    requires i < |prefixes| && AllSlashed(Cleans(prefixes)) && Cleans(prefixes)[i] != ""
    requires Unslashed(Cleans(prefixes)[i]) == top && !KeepsOwn(Cleans(prefixes)[i], Cleans(prefixes))
    requires PlainName(name) && forall j :: 0 <= j < |prefixes| ==> Below(top, name) != Unslashed(Cleans(prefixes)[j])
    requires PlanProblem(Some(files), top, top, prefixes) == None
    requires NormalizeRelative(top) == top && FileName(top) == top
    requires Candidate(top, top, k) == Joined(top, name) && FirstFree(files, top, top, k)
    ensures !PlansStayInside(prefixes)
  {
    UntidyGrantLeaks(prefixes, i, name);
    PlanLeaves(files, top, top, prefixes, top, k);
  }

  lemma TopAccepted(prefixes: seq<string>, i: nat, top: string, files: Files)
    requires i < |prefixes| && AllSlashed(Cleans(prefixes)) && Cleans(prefixes)[i] != ""
    requires Unslashed(Cleans(prefixes)[i]) == top && NormalizeRelative(top) == top && Usable(top) && top in files
    ensures PlanProblem(Some(files), top, top, prefixes) == None
  {
    OwnDirectory(prefixes, i);
    RequestAccepted(files, top, top, prefixes);
  }

  /** The empty prefix lets a plan out: with the names that prefixes are named after taken, the file
      without a name is moved to a suffixed name at the top. */
  lemma EmptyPrefixPlanLeaves(prefixes: seq<string>, i: nat, empty: string)
    requires i < |prefixes| && AllSlashed(Cleans(prefixes)) && Cleans(prefixes)[i] == "/" && empty == ""
    ensures !PlansStayInside(prefixes)
  {
    EmptyIsUsable(empty);
    var k := FreeOfPrefixes(Cleans(prefixes), i, empty);
    TopCandidate(empty, k);
    var files := FilesUpTo(empty, empty, k, empty);
    TopAccepted(prefixes, i, empty, files);
    TopPlanLeaves(prefixes, i, empty, CandidateName(empty, k), k, files);
  }

  /** No accepted plan ever leaves the grant if and only if the grant is tidy. */
  lemma PlansStayInsideIff(prefixes: seq<string>)
    ensures PlansStayInside(prefixes) <==> TidyGrant(prefixes)
  {
    if TidyGrant(prefixes) {
      forall files: Files, source: string, directory: string, k: nat
        | PlanProblem(Some(files), source, directory, prefixes).None?
          && FirstFree(files, NormalizeRelative(directory), FileName(NormalizeRelative(source)), k)
        ensures WithinGrant(Candidate(NormalizeRelative(directory), FileName(NormalizeRelative(source)), k), prefixes)
      {
        PlannedDestinationStaysInGrant(files, source, directory, prefixes, k);
      }
    } else {
      UntidyPlansLeave(prefixes);
    }
  }

  lemma UntidyPlansLeave(prefixes: seq<string>)
    requires !TidyGrant(prefixes)
    ensures !PlansStayInside(prefixes)
  {
    var cleans := Cleans(prefixes);
    CleansAreSlashed(prefixes);
    var i :| 0 <= i < |cleans| && cleans[i] != "" && Usable(Unslashed(cleans[i])) && !KeepsOwn(cleans[i], cleans);
    assert Slashed(cleans[i]);
    if cleans[i] == "/" {
      EmptyPrefixPlanLeaves(prefixes, i, "");
    } else {
      UncoveredPlanLeaves(prefixes, i);
    }
  }

  lemma SmallPathFacts()
    ensures NormalizeRelative("in/a") == "in/a" && NormalizeRelative("in") == "in" && NormalizeRelative("") == ""
    ensures NormalizeRelative("/a") == "a"
    ensures FileName("in/a") == "a" && Stem("") == ""
    ensures Clean("in") == "in/" && Clean("") == "/"
  {
    AlreadyNormal("in/a");
    AlreadyNormal("in");
    AlreadyNormal("");
    assert Slashes("/a") == "/a" && "/a"[1..] == "a";
    StripLeadingFixes("a");
    assert LastIndexOf("in/a", '/') == 2 && "in/a"[3..] == "a";
  }

  lemma SmallPathsStay()
    ensures !Escapes("in/a") && !Escapes("") && !IsAbsolute("in/a") && !IsAbsolute("")
  {
    SmallPathFacts();
    EscapesFindsDotDot("in/a");
    EscapesFindsDotDot("");
  }

  lemma SmallPathsWithin()
    ensures WithinPrefix("in/a", "in") && WithinPrefix("", "")
    ensures !WithinPrefix("/a", "in") && !WithinPrefix("/a", "")
  {
    SmallPathFacts();
    assert "in/a"[..3] == "in/" && "in/"[..2] == "in" && "/"[..0] == "";
  }

  lemma EmptyPrefixPlanAccepted(files: Files, prefixes: seq<string>)
    requires "in/a" in files && prefixes == ["in", ""]
    ensures PlanProblem(Some(files), "in/a", "", prefixes) == None
  {
    SmallPathFacts();
    SmallPathsStay();
    SmallPathsWithin();
    assert WithinPrefix("in/a", prefixes[0]) && WithinPrefix("", prefixes[1]);
  }

  lemma FirstProbe(files: Files, directory: string, name: string, path: string)
    requires path == Stem(directory) + "/" + name && path !in files
    ensures Candidate(directory, name, 0) == path && FirstFree(files, directory, name, 0)
  {
  }

  lemma NeitherOfTwo(within: string -> bool, first: string, second: string)
    requires !within(first) && !within(second)
    ensures forall i :: 0 <= i < 2 ==> !within([first, second][i])
  {
  }

  /** A bare drive, as in `C:`. */
  predicate IsDrive(path: string) {
    |path| == 2 && ('a' <= path[0] <= 'z' || 'A' <= path[0] <= 'Z') && path[1] == ':'
  }

  lemma AbsoluteBelow(stem: string, rest: string)
    requires !IsAbsolute(stem)
    ensures IsAbsolute(stem + "/" + rest) <==> stem == "" || IsDrive(stem)
  {
    var path := stem + "/" + rest;
    assert path[|stem|] == '/';
    assert forall i :: 0 <= i < |stem| ==> path[i] == stem[i];
  }

  lemma StemOfRelative(n: string)
    requires NormalizeRelative(n) == n && !IsAbsolute(n)
    ensures !IsAbsolute(Stem(n))
    ensures Stem(n) == "" || IsDrive(Stem(n)) <==> n == "" || IsDrive(n)
  {
    if EndsWith(n, "/") {
      assert n[|n| - 1..] == "/" && n[|n| - 1] == '/';
      assert n == Stem(n) + "/";
    }
  }

  /** The guards refuse absolute input, yet an accepted request plans an absolute path if and only
      if its directory is empty or a bare drive, whatever is moved. */
  lemma PlannedDestinationAbsoluteIff(files: Files, source: string, directory: string, prefixes: seq<string>, k: nat)
    requires PlanProblem(Some(files), source, directory, prefixes).None?
    ensures IsAbsolute(Candidate(NormalizeRelative(directory), FileName(NormalizeRelative(source)), k))
            <==> NormalizeRelative(directory) == "" || IsDrive(NormalizeRelative(directory))
  {
    var n := NormalizeRelative(directory);
    assert NormalizeRelative(n) == n by { NormalForm(directory); }
    assert !IsAbsolute(n) by { UsableIsTurned(directory); }
    StemOfRelative(n);
    AbsoluteBelow(Stem(n), CandidateName(FileName(NormalizeRelative(source)), k));
  }

  lemma RootFileIsOutside()
    ensures !WithinGrant("/a", ["in", ""])
  {
    SmallPathsWithin();
    NeitherOfTwo(prefix => WithinPrefix("/a", prefix), "in", "");
  }

  /** With the empty prefix in the grant that directory is accepted, and the plan leaves the
      grant: `in/a` is to be moved to `/a`. */
  lemma EmptyPrefixPlansOutsideGrant(files: Files, source: string, directory: string, prefixes: seq<string>)
    requires source == "in/a" && directory == "" && prefixes == ["in", ""]
    requires source in files && "/a" !in files
    ensures PlanProblem(Some(files), source, directory, prefixes) == None
    ensures var destination := Candidate(directory, FileName(NormalizeRelative(source)), 0);
            && FirstFree(files, directory, FileName(NormalizeRelative(source)), 0)
            && destination == "/a" && !WithinGrant(destination, prefixes)
  {
    EmptyPrefixPlanAccepted(files, prefixes);
    var name := FileName(NormalizeRelative(source));
    assert name == "a" && Stem(directory) == "" by { SmallPathFacts(); }
    FirstProbe(files, directory, name, "/a");
    RootFileIsOutside();
  }

  // ---- commit ----------------------------------------------------------------------------

  datatype CommitRequest = CommitRequest(
    planId: string,
    expectedFingerprint: string,
    plan: MovePlan,
    nonce: string,
    receiptId: string)

  function TempName(request: CommitRequest): string {
    request.plan.relativeDestination + ".tmp-" + request.nonce
  }

  /** The first guard a commit fails before it touches anything. */
  function CommitGuard(fingerprint: Bytes -> string, files: Files, request: CommitRequest): Option<Problem> {
    var plan := request.plan;
    if request.planId != plan.planId then Some(UnknownPlan)
    else if plan.relativeSource !in files then Some(SourceMissing)
    else if fingerprint(files[plan.relativeSource]) != request.expectedFingerprint
            || fingerprint(files[plan.relativeSource]) != plan.sourceFingerprint then Some(SourceChanged)
    else if plan.relativeDestination in files then Some(DestinationCollision)
    else None
  }

  /** What the disk does to the two copies of this commit. */
  datatype Disk = Disk(stored: Bytes, landed: Bytes)

  /** Write a temporary copy, check it, rename it into place, check it again, drop the source. */
  method CommitMove(fs: FileSystem, fingerprint: Bytes -> string, request: CommitRequest, disk: Disk)
    returns (r: Result<MoveReceipt, Problem>)
    requires TempName(request) !in fs.files
    modifies fs
    ensures fs.history == old(fs.history) + CommitStates(fingerprint, old(fs.files), request, disk)
    ensures fs.files == AfterCommit(fingerprint, old(fs.files), request, disk)
    ensures r == CommitVerdict(fingerprint, old(fs.files), request, disk)
  {
    var plan, source, destination := request.plan, request.plan.relativeSource, request.plan.relativeDestination;
    if request.planId != plan.planId {
      return Rejected(UnknownPlan);
    }
    var present := fs.Exists(source);
    if !present {
      return Rejected(SourceMissing);
    }
    var bytes := fs.ReadBytes(source);
    var current := fingerprint(bytes);
    if current != request.expectedFingerprint || current != plan.sourceFingerprint {
      return Rejected(SourceChanged);
    }
    var taken := fs.Exists(destination);
    if taken {
      return Rejected(DestinationCollision);
    }
    var tempRelative := TempName(request);
    fs.WriteBytes(tempRelative, bytes, disk.stored);
    var written := fs.ReadBytes(tempRelative);
    if fingerprint(written) != current {
      fs.Remove(tempRelative);
      return Rejected(VerifyFailed);
    }
    fs.Rename(tempRelative, destination, disk.landed);
    var published := fs.ReadBytes(destination);
    if fingerprint(published) != current {
      fs.Remove(destination);
      return Rejected(VerifyFailed);
    }
    fs.Remove(source);
    return Accepted(MoveReceipt(request.receiptId, plan.planId, plan.bindingId, source, destination, current));
  }

  function CommitVerdict(fingerprint: Bytes -> string, files: Files, request: CommitRequest, disk: Disk)
    : Result<MoveReceipt, Problem>
  {
    var plan := request.plan;
    match CommitGuard(fingerprint, files, request)
    case Some(problem) => Rejected(problem)
    case None =>
      if fingerprint(disk.stored) != plan.sourceFingerprint || fingerprint(disk.landed) != plan.sourceFingerprint
      then Rejected(VerifyFailed)
      else Accepted(MoveReceipt(request.receiptId, plan.planId, plan.bindingId, plan.relativeSource,
                                plan.relativeDestination, plan.sourceFingerprint))
  }

  /** The states a commit passes through, one for each step that changes the files. */
  function CommitStates(fingerprint: Bytes -> string, files: Files, request: CommitRequest, disk: Disk): seq<Files> {
    if CommitGuard(fingerprint, files, request).Some? then []
    else
      var plan, temp := request.plan, TempName(request);
      var copied := files[temp := disk.stored];
      if fingerprint(disk.stored) != plan.sourceFingerprint then [copied, copied - {temp}]
      else
        var published := (copied - {temp})[plan.relativeDestination := disk.landed];
        if fingerprint(disk.landed) != plan.sourceFingerprint
        then [copied, published, published - {plan.relativeDestination}]
        else [copied, published, published - {plan.relativeSource}]
  }

  function AfterCommit(fingerprint: Bytes -> string, files: Files, request: CommitRequest, disk: Disk): Files {
    var states := CommitStates(fingerprint, files, request, disk);
    if states == [] then files else states[|states| - 1]
  }

  /** Bytes with this fingerprint stand at the source or at the destination. */
  predicate ContentPresent(fingerprint: Bytes -> string, files: Files, plan: MovePlan) {
    || (plan.relativeSource in files && fingerprint(files[plan.relativeSource]) == plan.sourceFingerprint)
    || (plan.relativeDestination in files && fingerprint(files[plan.relativeDestination]) == plan.sourceFingerprint)
  }

  /** From one state to the next no existing file gets other bytes. */
  predicate OverwritesNothing(before: Files, after: Files) {
    forall path :: path in before && path in after ==> after[path] == before[path]
  }

  /** A commit, of any plan over any files and disk, is accepted if and only if it names the plan, the
      source still has the bytes that were previewed and approved, the destination is free and both
      copies verify. Otherwise it answers with the first of these that fails. */
  lemma CommitAcceptedIff(fingerprint: Bytes -> string, files: Files, request: CommitRequest, disk: Disk)
    ensures var r := CommitVerdict(fingerprint, files, request, disk);
            var plan := request.plan;
            var named := request.planId == plan.planId;
            var present := named && plan.relativeSource in files;
            var intact := present
                             && fingerprint(files[plan.relativeSource]) == request.expectedFingerprint == plan.sourceFingerprint;
            var free := intact && plan.relativeDestination !in files;
            var verified := free
                            && fingerprint(disk.stored) == request.expectedFingerprint == fingerprint(disk.landed);
            && (r.Accepted? <==> verified)
            && (r == Rejected(UnknownPlan) <==> !named)
            && (r == Rejected(SourceMissing) <==> named && !present)
            && (r == Rejected(SourceChanged) <==> present && !intact)
            && (r == Rejected(DestinationCollision) <==> intact && !free)
            && (r == Rejected(VerifyFailed) <==> free && !verified)
            && (r.Accepted? ==>
                  r.value == MoveReceipt(request.receiptId, plan.planId, plan.bindingId, plan.relativeSource,
                                         plan.relativeDestination, fingerprint(files[plan.relativeSource])))
  {
  }

  /** Past its guards a commit first puts what the disk stores aside, under a suffixed name; one more
      step takes a copy that does not verify away again, two publish one that does. */
  lemma CopyStandsAside(fingerprint: Bytes -> string, files: Files, request: CommitRequest, disk: Disk)
    requires CommitStates(fingerprint, files, request, disk) != []
    ensures var states := CommitStates(fingerprint, files, request, disk);
            && states[0] == files[request.plan.relativeDestination + ".tmp-" + request.nonce := disk.stored]
            && |states| == if fingerprint(disk.stored) == request.plan.sourceFingerprint then 3 else 2
  {
  }

  /** No content is lost: at every step of a commit that got past its guards, whatever the disk
      stores and however the commit ends, the planned bytes are somewhere. */
  lemma CommitNeverLosesContent(fingerprint: Bytes -> string, files: Files, request: CommitRequest, disk: Disk, i: nat)
    requires TempName(request) !in files
    requires i < |CommitStates(fingerprint, files, request, disk)|
    ensures ContentPresent(fingerprint, files, request.plan)
    ensures ContentPresent(fingerprint, CommitStates(fingerprint, files, request, disk)[i], request.plan)
  {
    assert request.plan.relativeSource != TempName(request);
    assert request.plan.relativeSource != request.plan.relativeDestination;
  }

  /** Every step of a commit leaves the bytes of existing files alone, and only the temporary
      name, the destination and the source ever come or go. */
  lemma CommitOverwritesNothing(fingerprint: Bytes -> string, files: Files, request: CommitRequest, disk: Disk, i: nat)
    requires TempName(request) !in files
    requires i < |CommitStates(fingerprint, files, request, disk)|
    ensures var states := [files] + CommitStates(fingerprint, files, request, disk);
            var own := {TempName(request), request.plan.relativeDestination, request.plan.relativeSource};
            && OverwritesNothing(states[i], states[i + 1])
            && states[i + 1] - own == files - own
  {
    var temp, plan := TempName(request), request.plan;
    assert |temp| > |plan.relativeDestination|;
    var states := CommitStates(fingerprint, files, request, disk);
    var copied := states[0];
    assert copied - {temp} == files;
  }

  /** A rejected commit leaves the file map exactly as it was; an accepted one has moved the file
      and touched nothing else. */
  lemma CommitEndsCleanly(fingerprint: Bytes -> string, files: Files, request: CommitRequest, disk: Disk)
    requires TempName(request) !in files
    ensures var after := AfterCommit(fingerprint, files, request, disk);
            match CommitVerdict(fingerprint, files, request, disk)
            case Rejected(_) => after == files
            case Accepted(receipt) =>
              && after == (files - {receipt.relativeSource})[receipt.relativeDestination := disk.landed]
              && fingerprint(disk.landed) == fingerprint(files[receipt.relativeSource]) == receipt.sourceFingerprint
              && receipt.relativeSource in files && receipt.relativeDestination !in files
  {
    var temp, plan := TempName(request), request.plan;
    if CommitGuard(fingerprint, files, request).None? {
      var copied := files[temp := disk.stored];
      assert copied - {temp} == files;
      var published := files[plan.relativeDestination := disk.landed];
      assert published - {plan.relativeDestination} == files;
      assert published - {plan.relativeSource} == (files - {plan.relativeSource})[plan.relativeDestination := disk.landed];
    }
  }

  // ---- undo ------------------------------------------------------------------------------

  function UndoProblem(fingerprint: Bytes -> string, files: Files, receiptId: string, receipt: MoveReceipt): Option<Problem> {
    if receiptId != receipt.receiptId then Some(UnknownReceipt)
    else if receipt.relativeDestination !in files then Some(SourceMissing)
    else if receipt.relativeSource in files then Some(DestinationCollision)
    else if fingerprint(files[receipt.relativeDestination]) != receipt.sourceFingerprint then Some(VerifyFailed)
    else None
  }

  function UndoVerdict(fingerprint: Bytes -> string, files: Files, receiptId: string, receipt: MoveReceipt)
    : Result<MoveReceipt, Problem>
  {
    match UndoProblem(fingerprint, files, receiptId, receipt)
    case Some(problem) => Rejected(problem)
    case None => Accepted(receipt)
  }

  /** `landed` is what the rename leaves at the source. */
  function AfterUndo(fingerprint: Bytes -> string, files: Files, receiptId: string, receipt: MoveReceipt, landed: Bytes): Files {
    if UndoProblem(fingerprint, files, receiptId, receipt).Some? then files
    else (files - {receipt.relativeDestination})[receipt.relativeSource := landed]
  }

  /** Renames the moved file back. What lands is not checked again. */
  method UndoMove(fs: FileSystem, fingerprint: Bytes -> string, receiptId: string, receipt: MoveReceipt, landed: Bytes)
    returns (r: Result<MoveReceipt, Problem>)
    modifies fs
    ensures fs.files == AfterUndo(fingerprint, old(fs.files), receiptId, receipt, landed)
    ensures r == UndoVerdict(fingerprint, old(fs.files), receiptId, receipt)
    ensures r.Accepted? <==>
              && receiptId == receipt.receiptId
              && receipt.relativeDestination in old(fs.files) && receipt.relativeSource !in old(fs.files)
              && fingerprint(old(fs.files)[receipt.relativeDestination]) == receipt.sourceFingerprint
    ensures OverwritesNothing(old(fs.files), fs.files)
    ensures fs.history == old(fs.history) + if r.Accepted? then [fs.files] else []
  {
    if receiptId != receipt.receiptId {
      return Rejected(UnknownReceipt);
    }
    var present := fs.Exists(receipt.relativeDestination);
    if !present {
      return Rejected(SourceMissing);
    }
    var taken := fs.Exists(receipt.relativeSource);
    if taken {
      return Rejected(DestinationCollision);
    }
    var bytes := fs.ReadBytes(receipt.relativeDestination);
    if fingerprint(bytes) != receipt.sourceFingerprint {
      return Rejected(VerifyFailed);
    }
    fs.Rename(receipt.relativeDestination, receipt.relativeSource, landed);
    return Accepted(receipt);
  }

  /** An undo, of any receipt over any files, is accepted if and only if it names the receipt, the
      moved file is there with the receipt's fingerprint and its old place is free; it then moves
      that one file. Otherwise it changes nothing and answers with the first of these that fails. */
  lemma UndoAcceptedIff(fingerprint: Bytes -> string, files: Files, receiptId: string, receipt: MoveReceipt, landed: Bytes)
    ensures var r := UndoVerdict(fingerprint, files, receiptId, receipt);
            var after := AfterUndo(fingerprint, files, receiptId, receipt, landed);
            var named := receiptId == receipt.receiptId;
            var present := named && receipt.relativeDestination in files;
            var free := present && receipt.relativeSource !in files;
            var intact := free && fingerprint(files[receipt.relativeDestination]) == receipt.sourceFingerprint;
            && (r.Accepted? <==> intact)
            && (r == Rejected(UnknownReceipt) <==> !named)
            && (r == Rejected(SourceMissing) <==> named && !present)
            && (r == Rejected(DestinationCollision) <==> present && !free)
            && (r == Rejected(VerifyFailed) <==> free && !intact)
            && (r.Accepted? ==> r.value == receipt)
            && (r.Rejected? ==> after == files)
            && (forall path :: intact ==>
                  (path in after <==> path == receipt.relativeSource || (path in files && path != receipt.relativeDestination)))
            && (forall path :: intact && path in after ==>
                  after[path] == if path == receipt.relativeSource then landed else files[path])
  {
  }

  /** An accepted commit can be undone at once. The undo puts `landed` back in place of the source
      and changes nothing else, so it gives back the original file map if and only if what it lands
      are the original bytes; when its rename keeps the bytes, that is if and only if the commit
      kept them, which a fingerprint that separates contents forces. */
  lemma UndoRestoresCommit(fingerprint: Bytes -> string, files: Files, request: CommitRequest, disk: Disk, landed: Bytes)
    requires TempName(request) !in files
    requires CommitVerdict(fingerprint, files, request, disk).Accepted?
    ensures var receipt := CommitVerdict(fingerprint, files, request, disk).value;
            var moved := AfterCommit(fingerprint, files, request, disk);
            var restored := AfterUndo(fingerprint, moved, receipt.receiptId, receipt, landed);
            var original := files[receipt.relativeSource];
            && UndoProblem(fingerprint, moved, receipt.receiptId, receipt) == None
            && restored == files[receipt.relativeSource := landed]
            && (restored == files <==> landed == original)
            && (landed == moved[receipt.relativeDestination] ==>
                  && fingerprint(landed) == fingerprint(original)
                  && (restored == files <==> disk.landed == original)
                  && ((forall a: Bytes, b: Bytes :: fingerprint(a) == fingerprint(b) ==> a == b) ==> restored == files))
  {
    CommitEndsCleanly(fingerprint, files, request, disk);
    var receipt := CommitVerdict(fingerprint, files, request, disk).value;
    var moved := AfterCommit(fingerprint, files, request, disk);
    var restored := AfterUndo(fingerprint, moved, receipt.receiptId, receipt, landed);
    assert restored == files[receipt.relativeSource := landed];
    if landed == files[receipt.relativeSource] {
      assert files[receipt.relativeSource := landed] == files;
    }
  }
}
