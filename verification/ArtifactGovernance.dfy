/** Governed derivation: derived versions never widen a data mode or leave their tenant, and
    placements and evidence respect the mode, over every graph of derivations. */
module ArtifactGovernance {
  import opened Common
  import opened TenantScope

  datatype DataMode = Local | Hybrid | Cloud
  datatype Status = QuarantinedVersion | Active | Deleted
  datatype PlacementKind = OnDevice | InCloud

  datatype ArtifactVersion = ArtifactVersion(
    artifactId: StableId,
    versionId: StableId,
    tenantScope: TenantScope,
    dataMode: DataMode,
    contentSha256: string,
    status: Status)

  datatype ContentPlacement = ContentPlacement(
    placementId: StableId,
    artifactVersionId: StableId,
    tenantScope: TenantScope,
    kind: PlacementKind,
    opaqueReference: string,
    contentSha256: string,
    available: bool,
    revision: int)

  datatype EvidenceReference = EvidenceReference(
    evidenceId: StableId,
    artifactVersionId: StableId,
    tenantScope: TenantScope,
    coordinate: string,
    sourceState: string,
    excerpt: Option<string>)

  datatype GovernanceError =
    | SourceRequired | DuplicateIdentifier | CrossScope | SourceNotActive | DataModeWidening

  datatype ArtifactError =
    | InvalidIdentifier | InvalidScope | InvalidMode | InvalidKind | InvalidReference | ContentMismatch
    | InvalidRevision | RevisionConflict | InvalidStatus | InvalidCoordinate | CoordinateOutOfBounds
    | InvalidSourceState | LocalContentLeak

  function Rank(mode: DataMode): nat {
    match mode case Local => 0 case Hybrid => 1 case Cloud => 2
  }

  // ---- derived versions ------------------------------------------------------------------

  ghost function IdsOf(sources: seq<ArtifactVersion>, n: nat): set<string>
    requires n <= |sources|
  {
    set j | 0 <= j < n :: sources[j].versionId
  }

  /** What stops the loop at source `i`, given the ids before it. */
  ghost function SourceProblem(derived: ArtifactVersion, sources: seq<ArtifactVersion>, i: nat): Option<GovernanceError>
    requires i < |sources|
  {
    if sources[i].versionId == derived.versionId || sources[i].versionId in IdsOf(sources, i) then Some(DuplicateIdentifier)
    else if !ScopesEqual(sources[i].tenantScope, derived.tenantScope) then Some(CrossScope)
    else if sources[i].status != Active then Some(SourceNotActive)
    else None
  }

  /** The problem of the first wrong source among the first `n`. */
  ghost function FirstProblem(derived: ArtifactVersion, sources: seq<ArtifactVersion>, n: nat): Option<GovernanceError>
    requires n <= |sources|
  {
    if n == 0 then None
    else
      var earlier := FirstProblem(derived, sources, n - 1);
      if earlier.Some? then earlier else SourceProblem(derived, sources, n - 1)
  }

  /** Everything a derivation must be. */
  ghost predicate DerivationAllowed(derived: ArtifactVersion, sources: seq<ArtifactVersion>) {
    && sources != []
    && (forall i, j :: 0 <= i < j < |sources| ==> sources[i].versionId != sources[j].versionId)
    && (forall s :: s in sources ==>
          && s.versionId != derived.versionId && s.tenantScope == derived.tenantScope && s.status == Active
          && Rank(derived.dataMode) <= Rank(s.dataMode))
  }

  /** The source loop: fills the id set and the ranks, and stops at the first wrong source. */
  method CheckSources(derived: ArtifactVersion, sources: seq<ArtifactVersion>)
    returns (problem: Option<GovernanceError>, sourceModeRanks: seq<nat>)
    ensures problem == FirstProblem(derived, sources, |sources|)
    ensures problem.None? ==>
              |sourceModeRanks| == |sources| && forall i :: 0 <= i < |sources| ==> sourceModeRanks[i] == Rank(sources[i].dataMode)
  {
    var sourceIds: set<string> := {};
    sourceModeRanks := [];
    for i := 0 to |sources|
      invariant sourceIds == IdsOf(sources, i)
      invariant |sourceModeRanks| == i && forall j :: 0 <= j < i ==> sourceModeRanks[j] == Rank(sources[j].dataMode)
      invariant FirstProblem(derived, sources, i).None?
    {
      var source := sources[i];
      if source.versionId == derived.versionId || source.versionId in sourceIds {
        FirstProblemStays(derived, sources, i + 1, |sources|);
        return Some(DuplicateIdentifier), [];
      }
      sourceIds := sourceIds + {source.versionId};
      if !ScopesEqual(source.tenantScope, derived.tenantScope) {
        FirstProblemStays(derived, sources, i + 1, |sources|);
        return Some(CrossScope), [];
      }
      if source.status != Active {
        FirstProblemStays(derived, sources, i + 1, |sources|);
        return Some(SourceNotActive), [];
      }
      sourceModeRanks := sourceModeRanks + [Rank(source.dataMode)];
    }
    return None, sourceModeRanks;
  }

  /** `Math.min` over the ranks. */
  method Minimum(ranks: seq<nat>) returns (least: nat)
    requires ranks != []
    ensures least in ranks && forall r :: r in ranks ==> least <= r
  {
    least := ranks[0];
    for i := 1 to |ranks|
      invariant least in ranks && forall j :: 0 <= j < i ==> least <= ranks[j]
    {
      if ranks[i] < least {
        least := ranks[i];
      }
    }
  }

  /** Accepts exactly the allowed derivations. Otherwise reports what is wrong with the first
      wrong source, and a widened mode only when no source is wrong. */
  method ValidateDerivedArtifactVersion(derived: ArtifactVersion, sources: seq<ArtifactVersion>)
    returns (r: Result<bool, GovernanceError>)
    ensures r.Accepted? <==> DerivationAllowed(derived, sources)
    ensures r == if DerivationAllowed(derived, sources) then Accepted(true)
                 else if sources == [] then Rejected(SourceRequired)
                 else match FirstProblem(derived, sources, |sources|)
                      case Some(problem) => Rejected(problem)
                      case None => Rejected(DataModeWidening)
  {
    FirstProblemDecides(derived, sources);
    if |sources| == 0 {
      return Rejected(SourceRequired);
    }
    var problem, sourceModeRanks := CheckSources(derived, sources);
    if problem.Some? {
      return Rejected(problem.value);
    }
    var leastPermissiveSource := Minimum(sourceModeRanks);
    assert forall s :: s in sources ==> Rank(s.dataMode) in sourceModeRanks;
    assert forall x :: x in sourceModeRanks ==> exists s :: s in sources && Rank(s.dataMode) == x;
    return if Rank(derived.dataMode) <= leastPermissiveSource then Accepted(true) else Rejected(DataModeWidening);
  }

  lemma {:induction false} FirstProblemStays(derived: ArtifactVersion, sources: seq<ArtifactVersion>, i: nat, n: nat)
    requires i <= n <= |sources| && FirstProblem(derived, sources, i).Some?
    ensures FirstProblem(derived, sources, n) == FirstProblem(derived, sources, i)
    decreases n - i
  {
    if i < n {
      FirstProblemStays(derived, sources, i + 1, n);
    }
  }

  lemma {:induction false} NoFirstProblem(derived: ArtifactVersion, sources: seq<ArtifactVersion>, n: nat)
    requires n <= |sources|
    ensures FirstProblem(derived, sources, n).None? <==> forall i :: 0 <= i < n ==> SourceProblem(derived, sources, i).None?
  {
    if n > 0 {
      NoFirstProblem(derived, sources, n - 1);
    }
  }

  /** No source is wrong, and none is narrower than the derived version, exactly when the
      derivation is allowed. */
  lemma FirstProblemDecides(derived: ArtifactVersion, sources: seq<ArtifactVersion>)
    ensures DerivationAllowed(derived, sources)
            <==> && sources != [] && FirstProblem(derived, sources, |sources|).None?
                 && forall s :: s in sources ==> Rank(derived.dataMode) <= Rank(s.dataMode)
  {
    NoFirstProblem(derived, sources, |sources|);
    if FirstProblem(derived, sources, |sources|).None? {
      NoProblemMeansSound(derived, sources);
    }
    if DerivationAllowed(derived, sources) {
      forall i | 0 <= i < |sources|
        ensures SourceProblem(derived, sources, i).None?
      {
        assert sources[i] in sources;
        ScopeKeyIdentifiesScope(sources[i].tenantScope, derived.tenantScope);
      }
    }
  }

  /** Modes order from Local, the narrowest, to Cloud. */
  lemma RankOrdersModes(a: DataMode, b: DataMode)
    ensures Rank(a) <= Rank(b) <==> a == b || a == Local || b == Cloud
  {
  }

  /** Source `i` is not the derived version and repeats none before it. */
  predicate Distinct(derived: ArtifactVersion, sources: seq<ArtifactVersion>, i: nat)
    requires i < |sources|
  {
    sources[i].versionId != derived.versionId && forall j :: 0 <= j < i ==> sources[j].versionId != sources[i].versionId
  }

  predicate Proper(derived: ArtifactVersion, sources: seq<ArtifactVersion>, i: nat)
    requires i < |sources|
  {
    Distinct(derived, sources, i) && sources[i].tenantScope == derived.tenantScope && sources[i].status == Active
  }

  /** Source `i` is the first that is not proper. */
  predicate FirstImproper(derived: ArtifactVersion, sources: seq<ArtifactVersion>, i: int) {
    0 <= i < |sources| && !Proper(derived, sources, i) && forall j :: 0 <= j < i ==> Proper(derived, sources, j)
  }

  lemma SourceProblemIs(derived: ArtifactVersion, sources: seq<ArtifactVersion>, i: nat)
    requires i < |sources|
    ensures var problem := SourceProblem(derived, sources, i);
            && (problem == None <==> Proper(derived, sources, i))
            && (problem == Some(DuplicateIdentifier) <==> !Distinct(derived, sources, i))
            && (problem == Some(CrossScope) <==> Distinct(derived, sources, i) && sources[i].tenantScope != derived.tenantScope)
            && (problem.Some? ==> problem.value in {DuplicateIdentifier, CrossScope, SourceNotActive})
  {
    ScopeKeyIdentifiesScope(sources[i].tenantScope, derived.tenantScope);
  }

  /** The problem that is reported is that of the first source that is not proper: a repeated or own
      identifier, then a foreign scope, then a status other than active. */
  lemma {:induction false} FirstProblemIsFirst(derived: ArtifactVersion, sources: seq<ArtifactVersion>, n: nat, i: int)
    requires n <= |sources| && FirstImproper(derived, sources, i)
    ensures FirstProblem(derived, sources, n)
            == if n <= i then None
               else if !Distinct(derived, sources, i) then Some(DuplicateIdentifier)
               else if sources[i].tenantScope != derived.tenantScope then Some(CrossScope)
               else Some(SourceNotActive)
  {
    if n > 0 {
      FirstProblemIsFirst(derived, sources, n - 1, i);
      SourceProblemIs(derived, sources, n - 1);
      assert n - 1 < i ==> Proper(derived, sources, n - 1);
    }
  }

  lemma NoProblemMeansSound(derived: ArtifactVersion, sources: seq<ArtifactVersion>)
    requires forall i :: 0 <= i < |sources| ==> SourceProblem(derived, sources, i).None?
    ensures forall i, j :: 0 <= i < j < |sources| ==> sources[i].versionId != sources[j].versionId
    ensures forall s :: s in sources ==>
              s.versionId != derived.versionId && s.tenantScope == derived.tenantScope && s.status == Active
  {
    forall i, j | 0 <= i < j < |sources|
      ensures sources[i].versionId != sources[j].versionId
    {
      assert SourceProblem(derived, sources, j).None?;
    }
    forall s | s in sources
      ensures s.versionId != derived.versionId && s.tenantScope == derived.tenantScope && s.status == Active
    {
      var i :| 0 <= i < |sources| && sources[i] == s;
      assert SourceProblem(derived, sources, i).None?;
      ScopeKeyIdentifiesScope(s.tenantScope, derived.tenantScope);
    }
  }

  // ---- placements and evidence -----------------------------------------------------------

  /** Placement input; a field is `None` when its parser rejects it. */
  datatype PlacementInput = PlacementInput(
    placementId: Option<StableId>,
    tenantScope: Option<TenantScope>,
    kind: Option<PlacementKind>,
    opaqueReference: Option<string>,
    contentSha256: Option<string>,
    available: Option<bool>,
    revision: int)

  function CreateContentPlacement(version: ArtifactVersion, input: PlacementInput): Result<ContentPlacement, ArtifactError> {
    if input.placementId.None? then Rejected(InvalidIdentifier)
    else if input.tenantScope.None? then Rejected(InvalidScope)
    else if !ScopesEqual(input.tenantScope.value, version.tenantScope) then Rejected(InvalidScope)
    else if input.kind.None? then Rejected(InvalidKind)
    else if input.opaqueReference.None? then Rejected(InvalidReference)
    else if input.contentSha256.None? || input.contentSha256.value != version.contentSha256 then Rejected(ContentMismatch)
    else if !SafeInteger(input.revision) || input.revision < 1 then Rejected(InvalidRevision)
    else if version.dataMode == Local && input.kind.value != OnDevice then Rejected(LocalContentLeak)
    else if version.dataMode == Cloud && input.kind.value != InCloud then Rejected(InvalidMode)
    else if input.available.None? then Rejected(InvalidStatus)
    else Accepted(ContentPlacement(input.placementId.value, version.versionId, input.tenantScope.value, input.kind.value,
                                   input.opaqueReference.value, input.contentSha256.value, input.available.value, input.revision))
  }

  function UpdateAvailability(placement: ContentPlacement, available: Option<bool>, expectedRevision: int)
    : Result<ContentPlacement, ArtifactError>
  {
    if available.None? then Rejected(InvalidStatus)
    else if !SafeInteger(expectedRevision) || expectedRevision < 1 then Rejected(InvalidRevision)
    else if expectedRevision != placement.revision then Rejected(RevisionConflict)
    else if available.value == placement.available then Accepted(placement)
    else Accepted(placement.(available := available.value, revision := placement.revision + 1))
  }

  datatype ExcerptInput = NoExcerpt | UnusableExcerpt | Excerpt(text: string)

  /** Evidence input; `geometryProblem` is what checking the coordinate against a geometry found. */
  datatype EvidenceInput = EvidenceInput(
    evidenceId: Option<StableId>,
    tenantScope: Option<TenantScope>,
    coordinate: Option<string>,
    geometryProblem: Option<ArtifactError>,
    sourceState: string,
    excerpt: ExcerptInput)

  function CreateEvidenceReference(version: ArtifactVersion, input: EvidenceInput): Result<EvidenceReference, ArtifactError> {
    if input.evidenceId.None? then Rejected(InvalidIdentifier)
    else if input.tenantScope.None? then Rejected(InvalidScope)
    else if !ScopesEqual(input.tenantScope.value, version.tenantScope) then Rejected(InvalidScope)
    else if input.coordinate.None? then Rejected(InvalidCoordinate)
    else if input.geometryProblem.Some? then Rejected(input.geometryProblem.value)
    else if input.sourceState !in ["AVAILABLE", "SOURCE_OFFLINE", "DELETED"] then Rejected(InvalidSourceState)
    else if input.excerpt.UnusableExcerpt? then Rejected(InvalidReference)
    else if version.dataMode == Local && input.excerpt.Excerpt? then Rejected(LocalContentLeak)
    else Accepted(EvidenceReference(input.evidenceId.value, version.versionId, input.tenantScope.value,
                                    input.coordinate.value, input.sourceState,
                                    if input.excerpt.Excerpt? then Some(input.excerpt.text) else None))
  }

  /** Local content stays on the device and Cloud content in the cloud. */
  predicate KindAllowed(mode: DataMode, kind: PlacementKind) {
    (mode == Local ==> kind == OnDevice) && (mode == Cloud ==> kind == InCloud)
  }

  /** A placement is created if and only if every field parses, its scope and content are the
      version's and its kind is one the version's mode allows; a Local version is never placed in
      the cloud. It then says what was asked for. */
  lemma PlacementRespectsMode(version: ArtifactVersion, input: PlacementInput)
    ensures var r := CreateContentPlacement(version, input);
            && (r.Accepted? <==>
                  && input.placementId.Some? && input.tenantScope == Some(version.tenantScope)
                  && input.kind.Some? && input.opaqueReference.Some? && input.contentSha256 == Some(version.contentSha256)
                  && 1 <= input.revision <= MAX_SAFE_INTEGER
                  && KindAllowed(version.dataMode, input.kind.value) && input.available.Some?)
            && (r.Accepted? ==>
                  r.value == ContentPlacement(input.placementId.value, version.versionId, version.tenantScope, input.kind.value,
                                              input.opaqueReference.value, version.contentSha256, input.available.value,
                                              input.revision))
  {
    if input.tenantScope.Some? {
      ScopeKeyIdentifiesScope(input.tenantScope.value, version.tenantScope);
    }
  }

  /** A refused placement names its first fault. */
  lemma PlacementRefusesFirstFault(version: ArtifactVersion, input: PlacementInput)
    ensures var r := CreateContentPlacement(version, input);
            var scoped := input.placementId.Some? && input.tenantScope == Some(version.tenantScope);
            var kinded := scoped && input.kind.Some?;
            var referenced := kinded && input.opaqueReference.Some?;
            var matched := referenced && input.contentSha256 == Some(version.contentSha256);
            var revised := matched && 1 <= input.revision <= MAX_SAFE_INTEGER;
            var allowed := revised && KindAllowed(version.dataMode, input.kind.value);
            && (r == Rejected(InvalidIdentifier) <==> input.placementId.None?)
            && (r == Rejected(InvalidScope) <==> input.placementId.Some? && !scoped)
            && (r == Rejected(InvalidKind) <==> scoped && !kinded)
            && (r == Rejected(InvalidReference) <==> kinded && !referenced)
            && (r == Rejected(ContentMismatch) <==> referenced && !matched)
            && (r == Rejected(InvalidRevision) <==> matched && !revised)
            && (r == Rejected(LocalContentLeak) <==> revised && !allowed && version.dataMode == Local)
            && (r == Rejected(InvalidMode) <==> revised && !allowed && version.dataMode == Cloud)
            && (r == Rejected(InvalidStatus) <==> allowed && input.available.None?)
  {
    if input.tenantScope.Some? {
      ScopeKeyIdentifiesScope(input.tenantScope.value, version.tenantScope);
    }
  }

  /** Marking a placement is accepted if and only if the mark is one and the revision is the
      placement's own, of at least 1. A mark it has already changes nothing; another one raises the
      revision. */
  lemma AvailabilityAcceptedIff(placement: ContentPlacement, available: Option<bool>, expectedRevision: int)
    ensures var r := UpdateAvailability(placement, available, expectedRevision);
            var revised := available.Some? && 1 <= expectedRevision <= MAX_SAFE_INTEGER;
            && (r.Accepted? <==> revised && expectedRevision == placement.revision)
            && (r == Rejected(InvalidStatus) <==> available.None?)
            && (r == Rejected(InvalidRevision) <==> available.Some? && !revised)
            && (r == Rejected(RevisionConflict) <==> revised && expectedRevision != placement.revision)
            && (r.Accepted? ==>
                  && r.value == placement.(available := available.value, revision := r.value.revision)
                  && r.value.revision == placement.revision + if available.value == placement.available then 0 else 1)
  {
  }

  predicate KnownSourceState(state: string) {
    state == "AVAILABLE" || state == "SOURCE_OFFLINE" || state == "DELETED"
  }

  /** Evidence is created if and only if every field parses, its scope is the version's, its
      coordinate fits the geometry, and a Local version is cited without an excerpt. It then says
      what was asked for; otherwise it is refused with its first fault. */
  lemma EvidenceAcceptedIff(version: ArtifactVersion, input: EvidenceInput)
    ensures var r := CreateEvidenceReference(version, input);
            var scoped := input.evidenceId.Some? && input.tenantScope == Some(version.tenantScope);
            var located := scoped && input.coordinate.Some?;
            var fitting := located && input.geometryProblem.None?;
            var stated := fitting && KnownSourceState(input.sourceState);
            var usable := stated && !input.excerpt.UnusableExcerpt?;
            && (r.Accepted? <==> usable && (version.dataMode == Local ==> input.excerpt == NoExcerpt))
            && (r.Accepted? ==>
                  r.value == EvidenceReference(input.evidenceId.value, version.versionId, version.tenantScope,
                                               input.coordinate.value, input.sourceState,
                                               match input.excerpt case Excerpt(text) => Some(text) case _ => None))
            && (input.evidenceId.None? ==> r == Rejected(InvalidIdentifier))
            && (input.evidenceId.Some? && !scoped ==> r == Rejected(InvalidScope))
            && (scoped && !located ==> r == Rejected(InvalidCoordinate))
            && (located && !fitting ==> r == Rejected(input.geometryProblem.value))
            && (fitting && !stated ==> r == Rejected(InvalidSourceState))
            && (stated && !usable ==> r == Rejected(InvalidReference))
            && (usable && r.Rejected? ==> r == Rejected(LocalContentLeak))
  {
    if input.tenantScope.Some? {
      ScopeKeyIdentifiesScope(input.tenantScope.value, version.tenantScope);
    }
  }

  // ---- stores ----------------------------------------------------------------------------

  /** The versions, what each was derived from, and what was placed and cited. */
  datatype Store = Store(
    versions: map<StableId, ArtifactVersion>,
    sources: map<StableId, seq<StableId>>,
    placements: seq<ContentPlacement>,
    evidence: seq<EvidenceReference>)

  datatype Step =
    | AdmitOriginal(version: ArtifactVersion)
    | AdmitDerived(version: ArtifactVersion, sourceIds: seq<StableId>)
    | ChangeStatus(versionId: StableId, status: Status)
    | Place(versionId: StableId, placement: PlacementInput)
    | SetAvailability(index: nat, available: Option<bool>, expectedRevision: int)
    | Cite(versionId: StableId, evidence: EvidenceInput)

  const EMPTY := Store(map[], map[], [], [])

  function Lookup(store: Store, ids: seq<StableId>): seq<ArtifactVersion>
    requires forall x :: x in ids ==> x in store.versions
  {
    seq(|ids|, i requires 0 <= i < |ids| => store.versions[ids[i]])
  }

  /** A derivation is registered: every source is stored and its guard passes, the version is new
      or stored exactly so, and it has no lineage yet or the very same one. */
  ghost predicate Registers(store: Store, v: ArtifactVersion, ids: seq<StableId>) {
    && (forall x :: x in ids ==> x in store.versions)
    && DerivationAllowed(v, Lookup(store, ids))
    && (v.versionId in store.versions ==> store.versions[v.versionId] == v)
    && (v.versionId in store.sources ==> store.sources[v.versionId] == ids)
  }

  /** One step of the surrounding services; what a guard rejects changes nothing. */
  ghost function Next(store: Store, step: Step): Store {
    match step
    case AdmitOriginal(v) =>
      if v.versionId in store.versions then store else store.(versions := store.versions[v.versionId := v])
    case AdmitDerived(v, ids) =>
      if Registers(store, v, ids)
      then store.(versions := store.versions[v.versionId := v], sources := store.sources[v.versionId := ids])
      else store
    case ChangeStatus(id, status) =>
      if id !in store.versions then store
      else store.(versions := store.versions[id := store.versions[id].(status := status)])
    case Place(id, input) =>
      if id !in store.versions then store
      else
        (match CreateContentPlacement(store.versions[id], input)
         case Rejected(_) => store
         case Accepted(p) => store.(placements := store.placements + [p]))
    case SetAvailability(i, available, expectedRevision) =>
      if i >= |store.placements| then store
      else
        (match UpdateAvailability(store.placements[i], available, expectedRevision)
         case Rejected(_) => store
         case Accepted(p) => store.(placements := store.placements[i := p]))
    case Cite(id, input) =>
      if id !in store.versions then store
      else
        (match CreateEvidenceReference(store.versions[id], input)
         case Rejected(_) => store
         case Accepted(e) => store.(evidence := store.evidence + [e]))
  }

  ghost function Build(steps: seq<Step>): Store {
    if steps == [] then EMPTY else Next(Build(steps[..|steps| - 1]), steps[|steps| - 1])
  }

  /** What a guard accepts is stored, and nothing else in the store changes. */
  lemma AcceptedStepsAreStored(store: Store, id: StableId, status: Status, placement: PlacementInput, evidence: EvidenceInput,
                               i: nat, available: Option<bool>, revision: int)
    requires id in store.versions && i < |store.placements|
    ensures var v := store.versions[id].(status := status);
            Next(store, ChangeStatus(id, status)) == store.(versions := store.versions[id := v])
    ensures var r := CreateContentPlacement(store.versions[id], placement);
            r.Accepted? ==> Next(store, Place(id, placement)) == store.(placements := store.placements + [r.value])
    ensures var r := UpdateAvailability(store.placements[i], available, revision);
            r.Accepted? ==> Next(store, SetAvailability(i, available, revision)) == store.(placements := store.placements[i := r.value])
    ensures var r := CreateEvidenceReference(store.versions[id], evidence);
            r.Accepted? ==> Next(store, Cite(id, evidence)) == store.(evidence := store.evidence + [r.value])
  {
  }

  /** `source` is one of the versions `derived` was made from. */
  predicate Edge(store: Store, source: StableId, derived: StableId) {
    derived in store.sources && source in store.sources[derived]
  }

  /** From an ancestor down to a descendant, edge by edge. */
  ghost predicate Lineage(store: Store, path: seq<StableId>) {
    |path| >= 2 && forall i :: 0 <= i < |path| - 1 ==> Edge(store, path[i], path[i + 1])
  }

  ghost predicate Ancestor(store: Store, a: StableId, d: StableId) {
    exists path :: Lineage(store, path) && path[0] == a && path[|path| - 1] == d
  }

  ghost predicate EdgeSound(store: Store, s: StableId, d: StableId) {
    && s in store.versions && d in store.versions
    && store.versions[s].tenantScope == store.versions[d].tenantScope
    && Rank(store.versions[d].dataMode) <= Rank(store.versions[s].dataMode)
  }

  ghost predicate PlacementSound(store: Store, p: ContentPlacement) {
    && p.artifactVersionId in store.versions
    && var v := store.versions[p.artifactVersionId];
       p.tenantScope == v.tenantScope && (v.dataMode == Local ==> p.kind == OnDevice) && (v.dataMode == Cloud ==> p.kind == InCloud)
  }

  ghost predicate EvidenceSound(store: Store, e: EvidenceReference) {
    && e.artifactVersionId in store.versions
    && var v := store.versions[e.artifactVersionId];
       e.tenantScope == v.tenantScope && (v.dataMode == Local ==> e.excerpt == None)
  }

  ghost predicate Governed(store: Store) {
    && (forall x :: x in store.versions ==> store.versions[x].versionId == x)
    && (forall s, d :: Edge(store, s, d) ==> EdgeSound(store, s, d))
    && (forall p :: p in store.placements ==> PlacementSound(store, p))
    && (forall e :: e in store.evidence ==> EvidenceSound(store, e))
  }

  lemma OlderEdgesStaySound(store: Store, after: Store)
    requires Governed(store)
    requires forall x :: x in store.versions ==> x in after.versions && after.versions[x] == store.versions[x]
    ensures forall s, d :: Edge(store, s, d) ==> EdgeSound(after, s, d)
    ensures forall p :: p in store.placements ==> PlacementSound(after, p)
    ensures forall e :: e in store.evidence ==> EvidenceSound(after, e)
  {
    forall s, d | Edge(store, s, d)
      ensures EdgeSound(after, s, d)
    {
      assert EdgeSound(store, s, d);
    }
  }

  lemma DerivedStaysGoverned(store: Store, v: ArtifactVersion, ids: seq<StableId>)
    requires Governed(store) && Registers(store, v, ids)
    ensures Governed(Next(store, AdmitDerived(v, ids)))
  {
    var after := Next(store, AdmitDerived(v, ids));
    OlderEdgesStaySound(store, after);
    forall s, d | Edge(after, s, d)
      ensures EdgeSound(after, s, d)
    {
      if d == v.versionId {
        var k :| 0 <= k < |ids| && ids[k] == s;
        assert Lookup(store, ids)[k] == store.versions[s];
        assert store.versions[s] in Lookup(store, ids);
      } else {
        assert Edge(store, s, d);
      }
    }
  }

  lemma OriginalStaysGoverned(store: Store, v: ArtifactVersion)
    requires Governed(store) && v.versionId !in store.versions
    ensures Governed(Next(store, AdmitOriginal(v)))
  {
    var after := Next(store, AdmitOriginal(v));
    OlderEdgesStaySound(store, after);
    assert forall s, d :: Edge(after, s, d) ==> Edge(store, s, d);
  }

  lemma StatusStaysGoverned(store: Store, id: StableId, status: Status)
    requires Governed(store) && id in store.versions
    ensures Governed(Next(store, ChangeStatus(id, status)))
  {
    var after := Next(store, ChangeStatus(id, status));
    forall s, d | Edge(after, s, d)
      ensures EdgeSound(after, s, d)
    {
      assert Edge(store, s, d) && EdgeSound(store, s, d);
    }
    forall p | p in after.placements
      ensures PlacementSound(after, p)
    {
      assert PlacementSound(store, p);
    }
    forall e | e in after.evidence
      ensures EvidenceSound(after, e)
    {
      assert EvidenceSound(store, e);
    }
  }

  lemma SameVersionsStayGoverned(store: Store, after: Store)
    requires Governed(store)
    requires after == store.(placements := after.placements, evidence := after.evidence)
    requires forall p :: p in after.placements ==> PlacementSound(store, p)
    requires forall e :: e in after.evidence ==> EvidenceSound(store, e)
    ensures Governed(after)
  {
    forall s, d | Edge(after, s, d)
      ensures EdgeSound(after, s, d)
    {
      assert Edge(store, s, d) && EdgeSound(store, s, d);
    }
    forall p | p in after.placements
      ensures PlacementSound(after, p)
    {
      assert PlacementSound(store, p);
    }
    forall e | e in after.evidence
      ensures EvidenceSound(after, e)
    {
      assert EvidenceSound(store, e);
    }
  }

  lemma PlacedStaysGoverned(store: Store, id: StableId, input: PlacementInput)
    requires Governed(store) && id in store.versions
    ensures Governed(Next(store, Place(id, input)))
  {
    if input.tenantScope.Some? {
      ScopeKeyIdentifiesScope(input.tenantScope.value, store.versions[id].tenantScope);
    }
    SameVersionsStayGoverned(store, Next(store, Place(id, input)));
  }

  lemma CitedStaysGoverned(store: Store, id: StableId, input: EvidenceInput)
    requires Governed(store) && id in store.versions
    ensures Governed(Next(store, Cite(id, input)))
  {
    if input.tenantScope.Some? {
      ScopeKeyIdentifiesScope(input.tenantScope.value, store.versions[id].tenantScope);
    }
    SameVersionsStayGoverned(store, Next(store, Cite(id, input)));
  }

  lemma AvailabilityStaysGoverned(store: Store, i: nat, available: Option<bool>, expectedRevision: int)
    requires Governed(store)
    ensures Governed(Next(store, SetAvailability(i, available, expectedRevision)))
  {
    if i < |store.placements| {
      assert store.placements[i] in store.placements;
    }
    SameVersionsStayGoverned(store, Next(store, SetAvailability(i, available, expectedRevision)));
  }

  /** Whatever was admitted, derived, placed, cited and deleted, in whatever order, the store is
      governed. */
  lemma {:induction false} BuildIsGoverned(steps: seq<Step>)
    ensures Governed(Build(steps))
  {
    if steps != [] {
      var store, step := Build(steps[..|steps| - 1]), steps[|steps| - 1];
      BuildIsGoverned(steps[..|steps| - 1]);
      if Next(store, step) != store {
        match step
        case AdmitOriginal(v) => OriginalStaysGoverned(store, v);
        case AdmitDerived(v, ids) => DerivedStaysGoverned(store, v, ids);
        case ChangeStatus(id, status) => StatusStaysGoverned(store, id, status);
        case Place(id, input) => PlacedStaysGoverned(store, id, input);
        case SetAvailability(i, available, revision) => AvailabilityStaysGoverned(store, i, available, revision);
        case Cite(id, input) => CitedStaysGoverned(store, id, input);
      }
    }
  }

  // ---- over whole lineages ---------------------------------------------------------------

  lemma {:induction false} ModesNarrowAlongLineage(store: Store, path: seq<StableId>)
    requires Governed(store) && Lineage(store, path)
    ensures var a, d := path[0], path[|path| - 1];
            && a in store.versions && d in store.versions
            && store.versions[a].tenantScope == store.versions[d].tenantScope
            && Rank(store.versions[d].dataMode) <= Rank(store.versions[a].dataMode)
  {
    var last := |path| - 1;
    assert Edge(store, path[last - 1], path[last]);
    assert EdgeSound(store, path[last - 1], path[last]);
    if |path| > 2 {
      var init := path[..last];
      forall i | 0 <= i < |init| - 1
        ensures Edge(store, init[i], init[i + 1])
      {
        assert Edge(store, path[i], path[i + 1]);
      }
      ModesNarrowAlongLineage(store, init);
    }
  }

  /** In every store the guards build, a version with a Local ancestor, however far up, is Local
      itself, has no placement in the cloud and no evidence excerpt. */
  lemma LocalAncestorKeepsContentLocal(steps: seq<Step>, a: StableId, d: StableId)
    requires Ancestor(Build(steps), a, d) && a in Build(steps).versions
    requires Build(steps).versions[a].dataMode == Local
    ensures d in Build(steps).versions && Build(steps).versions[d].dataMode == Local
    ensures forall p :: p in Build(steps).placements && p.artifactVersionId == d ==> p.kind == OnDevice
    ensures forall e :: e in Build(steps).evidence && e.artifactVersionId == d ==> e.excerpt == None
  {
    var store := Build(steps);
    BuildIsGoverned(steps);
    var path :| Lineage(store, path) && path[0] == a && path[|path| - 1] == d;
    ModesNarrowAlongLineage(store, path);
    forall p | p in store.placements && p.artifactVersionId == d
      ensures p.kind == OnDevice
    {
      assert PlacementSound(store, p);
    }
    forall e | e in store.evidence && e.artifactVersionId == d
      ensures e.excerpt == None
    {
      assert EvidenceSound(store, e);
    }
  }

  /** All ancestors of a version share its tenant scope, and so do its placements and evidence. */
  lemma LineageStaysInTenant(steps: seq<Step>, a: StableId, d: StableId)
    requires Ancestor(Build(steps), a, d)
    ensures var store := Build(steps);
            && a in store.versions && d in store.versions
            && store.versions[a].tenantScope == store.versions[d].tenantScope
            && (forall p :: p in store.placements && p.artifactVersionId == d ==> p.tenantScope == store.versions[a].tenantScope)
            && (forall e :: e in store.evidence && e.artifactVersionId == d ==> e.tenantScope == store.versions[a].tenantScope)
  {
    var store := Build(steps);
    BuildIsGoverned(steps);
    var path :| Lineage(store, path) && path[0] == a && path[|path| - 1] == d;
    ModesNarrowAlongLineage(store, path);
    forall p | p in store.placements && p.artifactVersionId == d
      ensures p.tenantScope == store.versions[a].tenantScope
    {
      assert PlacementSound(store, p);
    }
    forall e | e in store.evidence && e.artifactVersionId == d
      ensures e.tenantScope == store.versions[a].tenantScope
    {
      assert EvidenceSound(store, e);
    }
  }

  // ---- circles ---------------------------------------------------------------------------

  ghost predicate Acyclic(store: Store) {
    forall a :: !Ancestor(store, a, a)
  }

  /** The step adds an edge from each source to the version, and no other. */
  lemma RegisteredEdges(store: Store, v: ArtifactVersion, ids: seq<StableId>)
    requires Registers(store, v, ids)
    ensures forall s, d :: Edge(Next(store, AdmitDerived(v, ids)), s, d)
              <==> Edge(store, s, d) || (d == v.versionId && s in ids)
  {
  }

  lemma SubpathIsLineage(store: Store, path: seq<StableId>, i: nat, j: nat)
    requires Lineage(store, path) && i + 1 < j <= |path|
    ensures Lineage(store, path[i..j])
  {
    var part := path[i..j];
    forall k | 0 <= k < |part| - 1
      ensures Edge(store, part[k], part[k + 1])
    {
      assert Edge(store, path[i + k], path[i + k + 1]);
    }
  }

  lemma JoinLineages(store: Store, path: seq<StableId>, more: seq<StableId>)
    requires Lineage(store, path) && Lineage(store, more) && path[|path| - 1] == more[0]
    ensures Lineage(store, path + more[1..])
  {
    var joined := path + more[1..];
    forall k | 0 <= k < |joined| - 1
      ensures Edge(store, joined[k], joined[k + 1])
    {
      if k < |path| - 1 {
        assert Edge(store, path[k], path[k + 1]);
      } else {
        assert Edge(store, more[k + 1 - |path|], more[k + 2 - |path|]);
      }
    }
  }

  lemma WalkIsAncestor(store: Store, path: seq<StableId>)
    requires Lineage(store, path)
    ensures Ancestor(store, path[0], path[|path| - 1])
  {
  }

  /** A circle can be walked from any of its places. */
  lemma Rotate(store: Store, path: seq<StableId>, i: nat)
    requires Lineage(store, path) && path[0] == path[|path| - 1] && i < |path|
    ensures Ancestor(store, path[i], path[i])
  {
    if i == 0 || i == |path| - 1 {
      assert Lineage(store, path);
    } else {
      SubpathIsLineage(store, path, i, |path|);
      SubpathIsLineage(store, path, 0, i + 1);
      JoinLineages(store, path[i..], path[..i + 1]);
      var circle := path[i..] + path[..i + 1][1..];
      assert circle[0] == path[i] && circle[|circle| - 1] == path[i];
    }
  }

  /** The first way back to `d` on a walk that starts there. */
  lemma FirstReturn(path: seq<StableId>, d: StableId) returns (k: nat)
    requires |path| >= 2 && path[0] == d == path[|path| - 1]
    ensures 1 <= k < |path| && path[k] == d && forall i :: 1 <= i < k ==> path[i] != d
  {
    k := 1;
    while path[k] != d
      invariant 1 <= k < |path|
      invariant forall i :: 1 <= i < k ==> path[i] != d
      decreases |path| - k
    {
      k := k + 1;
    }
  }

  /** A circle through `d` made of old edges and new edges into `d` goes back to `d` over an old
      circle or over a source below `d`. */
  lemma CircleUsesDescendant(store: Store, after: Store, path: seq<StableId>, d: StableId, ids: seq<StableId>)
    requires forall s, e :: Edge(after, s, e) <==> Edge(store, s, e) || (e == d && s in ids)
    requires Lineage(after, path) && path[0] == d == path[|path| - 1] && d !in ids
    ensures Ancestor(store, d, d) || exists s :: s in ids && Ancestor(store, d, s)
  {
    var k := FirstReturn(path, d);
    assert Edge(after, path[k - 1], path[k]);
    forall i | 0 <= i < k - 1
      ensures Edge(store, path[i], path[i + 1])
    {
      assert Edge(after, path[i], path[i + 1]);
    }
    if Edge(store, path[k - 1], d) {
      var circle := path[..k + 1];
      assert forall i :: 0 <= i < |circle| - 1 ==> Edge(store, circle[i], circle[i + 1]);
      assert Lineage(store, circle);
    } else {
      var walk := path[..k];
      assert forall i :: 0 <= i < |walk| - 1 ==> Edge(store, walk[i], walk[i + 1]);
      assert Lineage(store, walk);
    }
  }

  /** A new edge into `d` closes a circle from a source below `d`. */
  lemma DescendantClosesCircle(store: Store, after: Store, s: StableId, d: StableId)
    requires forall x, y :: Edge(store, x, y) ==> Edge(after, x, y)
    requires Ancestor(store, d, s) && Edge(after, s, d)
    ensures Ancestor(after, d, d)
  {
    var path :| Lineage(store, path) && path[0] == d && path[|path| - 1] == s;
    assert Lineage(after, path) by {
      forall i | 0 <= i < |path| - 1
        ensures Edge(after, path[i], path[i + 1])
      {
        assert Edge(store, path[i], path[i + 1]);
      }
    }
    JoinLineages(after, path, [s, d]);
    var circle := path + [s, d][1..];
    assert circle[0] == d && circle[|circle| - 1] == d;
  }

  lemma RegistrationKeepsAcyclic(store: Store, v: ArtifactVersion, ids: seq<StableId>)
    requires Acyclic(store) && Registers(store, v, ids)
    requires forall s :: s in ids ==> !Ancestor(store, v.versionId, s)
    requires v.versionId !in ids
    ensures Acyclic(Next(store, AdmitDerived(v, ids)))
  {
    var after, d := Next(store, AdmitDerived(v, ids)), v.versionId;
    RegisteredEdges(store, v, ids);
    forall a
      ensures !Ancestor(after, a, a)
    {
      if Ancestor(after, a, a) {
        var path :| Lineage(after, path) && path[0] == a && path[|path| - 1] == a;
        if d in path[1..] {
          var i :| 1 <= i < |path| && path[i] == d;
          Rotate(after, path, i);
          var circle :| Lineage(after, circle) && circle[0] == d && circle[|circle| - 1] == d;
          CircleUsesDescendant(store, after, circle, d, ids);
        } else {
          forall i | 0 <= i < |path| - 1
            ensures Edge(store, path[i], path[i + 1])
          {
            assert Edge(after, path[i], path[i + 1]) && path[i + 1] in path[1..];
          }
          WalkIsAncestor(store, path);
        }
      }
    }
  }

  lemma SourcesAreOthers(store: Store, v: ArtifactVersion, ids: seq<StableId>)
    requires Governed(store) && Registers(store, v, ids)
    ensures v.versionId !in ids
  {
    forall k | 0 <= k < |ids|
      ensures ids[k] != v.versionId
    {
      assert Lookup(store, ids)[k] in Lookup(store, ids);
      assert store.versions[ids[k]].versionId == ids[k];
    }
  }

  /** Registering a derivation keeps a store free of circles if and only if none of its sources
      descends from the version. The guards ask only that no source is the version itself. */
  lemma RegistrationKeepsAcyclicIff(store: Store, v: ArtifactVersion, ids: seq<StableId>)
    requires Governed(store) && Acyclic(store) && Registers(store, v, ids)
    ensures Acyclic(Next(store, AdmitDerived(v, ids))) <==> forall s :: s in ids ==> !Ancestor(store, v.versionId, s)
  {
    SourcesAreOthers(store, v, ids);
    RegisteredEdges(store, v, ids);
    if forall s :: s in ids ==> !Ancestor(store, v.versionId, s) {
      RegistrationKeepsAcyclic(store, v, ids);
    } else {
      var s :| s in ids && Ancestor(store, v.versionId, s);
      DescendantClosesCircle(store, Next(store, AdmitDerived(v, ids)), s, v.versionId);
    }
  }

  lemma NoEdgeFromNew(store: Store, a: StableId, d: StableId)
    requires Governed(store) && a !in store.versions
    ensures !Edge(store, a, d)
  {
    assert Edge(store, a, d) ==> EdgeSound(store, a, d);
  }

  /** A version nobody stored yet has no descendants. */
  lemma NewHasNoDescendants(store: Store, a: StableId, d: StableId)
    requires Governed(store) && a !in store.versions
    ensures !Ancestor(store, a, d)
  {
    if Ancestor(store, a, d) {
      var path :| Lineage(store, path) && path[0] == a && path[|path| - 1] == d;
      NoEdgeFromNew(store, path[0], path[1]);
    }
  }

  lemma SameEdgesSameAncestors(store: Store, after: Store, a: StableId, d: StableId)
    requires after.sources == store.sources
    ensures Ancestor(after, a, d) ==> Ancestor(store, a, d)
  {
    if Ancestor(after, a, d) {
      var path :| Lineage(after, path) && path[0] == a && path[|path| - 1] == d;
      forall i | 0 <= i < |path| - 1
        ensures Edge(store, path[i], path[i + 1])
      {
        assert Edge(after, path[i], path[i + 1]);
      }
      WalkIsAncestor(store, path);
    }
  }

  lemma SameEdgesStayAcyclic(store: Store, after: Store)
    requires Acyclic(store) && after.sources == store.sources
    ensures Acyclic(after)
  {
    forall a
      ensures !Ancestor(after, a, a)
    {
      SameEdgesSameAncestors(store, after, a, a);
    }
  }

  lemma NoSourcesNoEdge(store: Store, s: StableId, d: StableId)
    requires store.sources == map[]
    ensures !Edge(store, s, d)
  {
  }

  lemma NoSourcesNoCircle(store: Store)
    requires store.sources == map[]
    ensures Acyclic(store)
  {
    forall a
      ensures !Ancestor(store, a, a)
    {
      if Ancestor(store, a, a) {
        var path :| Lineage(store, path) && path[0] == a && path[|path| - 1] == a;
        NoSourcesNoEdge(store, path[0], path[1]);
      }
    }
  }

  /** Every derivation is registered for a version id that is new to the store. */
  ghost predicate DerivesNewIds(steps: seq<Step>) {
    forall k :: 0 <= k < |steps| && steps[k].AdmitDerived? ==> steps[k].version.versionId !in Build(steps[..k]).versions
  }

  /** When derived versions are always new, derivations never close a circle. */
  lemma {:induction false} LineageIsAcyclic(steps: seq<Step>)
    requires DerivesNewIds(steps)
    ensures Acyclic(Build(steps))
  {
    if steps == [] {
      NoSourcesNoCircle(EMPTY);
    } else {
      var init, step := steps[..|steps| - 1], steps[|steps| - 1];
      forall k | 0 <= k < |init| && init[k].AdmitDerived?
        ensures init[k].version.versionId !in Build(init[..k]).versions
      {
        assert init[k] == steps[k] && init[..k] == steps[..k];
      }
      LineageIsAcyclic(init);
      BuildIsGoverned(init);
      var store := Build(init);
      if step.AdmitDerived? && Registers(store, step.version, step.sourceIds) {
        forall s | s in step.sourceIds
          ensures !Ancestor(store, step.version.versionId, s)
        {
          NewHasNoDescendants(store, step.version.versionId, s);
        }
        RegistrationKeepsAcyclicIff(store, step.version, step.sourceIds);
      } else {
        SameEdgesStayAcyclic(store, Next(store, step));
      }
    }
  }

  lemma BuildSnoc(steps: seq<Step>, step: Step)
    ensures Build(steps + [step]) == Next(Build(steps), step)
  {
    assert (steps + [step])[..|steps|] == steps;
  }

  /** The premise is needed: an original stored first and then registered again, unchanged, as
      derived from its own derivative makes two versions each other's ancestors. */
  lemma RederivedOriginalClosesCircle(x: ArtifactVersion, y: ArtifactVersion) returns (steps: seq<Step>)
    requires DerivationAllowed(y, [x]) && DerivationAllowed(x, [y])
    ensures Ancestor(Build(steps), x.versionId, x.versionId)
  {
    var a, b, c := AdmitOriginal(x), AdmitDerived(y, [x.versionId]), AdmitDerived(x, [y.versionId]);
    steps := [] + [a] + [b] + [c];
    BuildSnoc([], a);
    BuildSnoc([] + [a], b);
    BuildSnoc([] + [a] + [b], c);
    assert x in [x] && y in [y];
    var one := Build([] + [a]);
    assert one == Store(map[x.versionId := x], map[], [], []);
    assert Lookup(one, [x.versionId]) == [x];
    var two := Build([] + [a] + [b]);
    assert two.versions == map[x.versionId := x, y.versionId := y];
    assert two.sources == map[y.versionId := [x.versionId]];
    assert Lookup(two, [y.versionId]) == [y];
    var three := Build(steps);
    assert Edge(three, x.versionId, y.versionId) && Edge(three, y.versionId, x.versionId);
    var circle := [x.versionId, y.versionId, x.versionId];
    assert Lineage(three, circle);
  }
}
