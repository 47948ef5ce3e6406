/** The stable-file detector: a file is released once its size and modification time have held
    still for the debounce interval. */
module StableFileDetector {
  import opened Common
  import RelativePaths

  datatype FileEvent = FileEvent(path: string, size: nat, mtimeMs: nat, contentFingerprint: Option<string>)

  datatype Observation =
    | Pending
    | Stable(path: string, size: nat, mtimeMs: nat)
    | PartialOrLock
    | DuplicateContent(path: string, contentFingerprint: string)

  datatype PendingEntry = PendingEntry(
    size: nat,
    mtimeMs: nat,
    lastChangedAtMs: int,
    firstSeenAtMs: int,
    contentFingerprint: Option<string>)

  datatype DetectorState = DetectorState(pending: map<string, PendingEntry>, contentIndex: map<string, string>)

  datatype Settings = Settings(debounceMs: int, maxPendingMs: int)

  /** What follows the last slash, of either kind. */
  function BaseName(path: string): string {
    if '/' in path || '\\' in path then BaseName(path[1..]) else path
  }

  predicate IsPartialOrLock(path: string) {
    var base := BaseName(path);
    || "~$" <= base
    || RelativePaths.EndsWith(base, ".partial")
    || RelativePaths.EndsWith(base, ".tmp")
    || RelativePaths.EndsWith(base, ".lock")
    || RelativePaths.EndsWith(base, ".crdownload")
  }

  /** What one observation answers and leaves behind. */
  function Observe(settings: Settings, s: DetectorState, event: FileEvent, nowMs: int): (DetectorState, Observation) {
    if IsPartialOrLock(event.path) then (s, PartialOrLock) else ObserveWhole(settings, s, event, nowMs)
  }

  /** The same for a file that is neither partial nor a lock. */
  function ObserveWhole(settings: Settings, s: DetectorState, event: FileEvent, nowMs: int): (DetectorState, Observation) {
    if event.path !in s.pending then
      var entry := PendingEntry(event.size, event.mtimeMs, nowMs, nowMs, event.contentFingerprint);
      (s.(pending := s.pending[event.path := entry]), Pending)
    else
      var existing := s.pending[event.path];
      var known := if event.contentFingerprint.Some? then event.contentFingerprint else existing.contentFingerprint;
      var entry := existing.(size := event.size, mtimeMs := event.mtimeMs, contentFingerprint := known);
      if existing.size != event.size || existing.mtimeMs != event.mtimeMs then
        (s.(pending := s.pending[event.path := entry.(lastChangedAtMs := nowMs)]), Pending)
      else if nowMs - existing.lastChangedAtMs < settings.debounceMs then
        (s.(pending := s.pending[event.path := entry]), Pending)
      else
        var released := s.(pending := s.pending - {event.path});
        if known.Some? && known.value in s.contentIndex then (released, DuplicateContent(event.path, known.value))
        else (released, Stable(event.path, event.size, event.mtimeMs))
  }

  function Expired(settings: Settings, s: DetectorState, nowMs: int): set<string> {
    set p | p in s.pending && nowMs - s.pending[p].firstSeenAtMs >= settings.maxPendingMs
  }

  // ---- insertion order -------------------------------------------------------------------

  predicate NoRepeats(order: seq<string>) {
    forall i, j :: 0 <= i < j < |order| ==> order[i] != order[j]
  }

  /** The listed paths that are in `kept`, in their order. */
  function Among(order: seq<string>, kept: set<string>): seq<string> {
    if order == [] then []
    else
      var init := Among(order[..|order| - 1], kept);
      if order[|order| - 1] in kept then init + [order[|order| - 1]] else init
  }

  function Remove(order: seq<string>, path: string): seq<string> {
    if order == [] then []
    else
      var init := Remove(order[..|order| - 1], path);
      if order[|order| - 1] == path then init else init + [order[|order| - 1]]
  }

  /** The order after one path was set or deleted: a new path goes last, a known one keeps its place. */
  function OrderAfter(order: seq<string>, pending: map<string, PendingEntry>, path: string): seq<string> {
    if path !in pending then Remove(order, path) else if path in order then order else order + [path]
  }

  lemma AmongSnoc(order: seq<string>, path: string, kept: set<string>)
    ensures Among(order + [path], kept) == Among(order, kept) + if path in kept then [path] else []
  {
    assert (order + [path])[..|order|] == order;
  }

  lemma NoRepeatsSnoc(order: seq<string>, path: string)
    ensures NoRepeats(order + [path]) <==> NoRepeats(order) && path !in order
  {
    var more := order + [path];
    assert more[|order|] == path;
    assert forall i :: 0 <= i < |order| ==> more[i] == order[i];
  }

  lemma {:induction false} AmongMembers(order: seq<string>, kept: set<string>)
    ensures forall p :: p in Among(order, kept) <==> p in order && p in kept
    ensures NoRepeats(order) ==> NoRepeats(Among(order, kept))
  {
    if order != [] {
      var init, last := order[..|order| - 1], order[|order| - 1];
      AmongMembers(init, kept);
      assert order == init + [last];
      NoRepeatsSnoc(init, last);
      NoRepeatsSnoc(Among(init, kept), last);
    }
  }

  lemma {:induction false} RemoveFacts(order: seq<string>, path: string)
    ensures forall p :: p in Remove(order, path) <==> p in order && p != path
    ensures NoRepeats(order) ==> NoRepeats(Remove(order, path))
    ensures path !in order ==> Remove(order, path) == order
  {
    if order != [] {
      var init, last := order[..|order| - 1], order[|order| - 1];
      RemoveFacts(init, path);
      assert order == init + [last];
      NoRepeatsSnoc(init, last);
      NoRepeatsSnoc(Remove(init, path), last);
    }
  }

  class Detector {
    const settings: Settings
    var pending: map<string, PendingEntry>
    var contentIndex: map<string, string>
    var order: seq<string>  // the pending paths, first inserted first

    /** The order lists the pending paths, each once. */
    ghost predicate Valid()
      reads this
    {
      (forall p :: p in order <==> p in pending) && NoRepeats(order)
    }

    constructor (debounceMs: int, maxPendingMs: Option<int>)
      ensures State() == DetectorState(map[], map[]) && Valid() && order == []
      ensures settings.debounceMs == debounceMs
      ensures settings.maxPendingMs == if maxPendingMs.Some? then maxPendingMs.value else debounceMs * 10
    {
      settings := Settings(debounceMs, if maxPendingMs.Some? then maxPendingMs.value else debounceMs * 10);
      pending, contentIndex, order := map[], map[], [];
    }

    function State(): DetectorState
      reads this
    {
      DetectorState(pending, contentIndex)
    }

    method ObserveFile(event: FileEvent, nowMs: int) returns (o: Observation)
      requires Valid()
      modifies this
      ensures (State(), o) == Observe(settings, old(State()), event, nowMs)
      ensures Valid() && order == OrderAfter(old(order), State().pending, event.path)
    {
      RemoveFacts(order, event.path);
      if IsPartialOrLock(event.path) {
        return PartialOrLock;
      }
      if event.path !in pending {
        pending := pending[event.path := PendingEntry(event.size, event.mtimeMs, nowMs, nowMs, event.contentFingerprint)];
        order := order + [event.path];
        return Pending;
      }
      var existing := pending[event.path];
      var changed := existing.size != event.size || existing.mtimeMs != event.mtimeMs;
      existing := existing.(size := event.size, mtimeMs := event.mtimeMs);
      if event.contentFingerprint.Some? {
        existing := existing.(contentFingerprint := event.contentFingerprint);
      }
      pending := pending[event.path := existing];
      if changed {
        pending := pending[event.path := existing.(lastChangedAtMs := nowMs)];
        assert pending == old(pending)[event.path := existing.(lastChangedAtMs := nowMs)];
        return Pending;
      }
      if nowMs - existing.lastChangedAtMs < settings.debounceMs {
        return Pending;
      }
      pending := pending - {event.path};
      order := Remove(order, event.path);
      assert pending == old(pending) - {event.path};
      if existing.contentFingerprint.Some? && existing.contentFingerprint.value in contentIndex {
        return DuplicateContent(event.path, existing.contentFingerprint.value);
      }
      return Stable(event.path, event.size, event.mtimeMs);
    }

    /** Drops and reports the entries that have been pending too long, each once, in the order they
        were inserted. */
    method Tick(nowMs: int) returns (expired: seq<string>)
      requires Valid()
      modifies this
      ensures State() == After(settings, old(State()), Ticked(nowMs))
      ensures expired == Among(old(order), Expired(settings, old(State()), nowMs))
      ensures Valid() && order == Among(old(order), pending.Keys)
    {
      expired := [];
      ghost var late := Expired(settings, State(), nowMs);
      var entries, paths := pending, order;
      for k := 0 to |paths|
        invariant expired == Among(paths[..k], late)
        invariant pending == entries - (set p | p in expired)
        invariant contentIndex == old(contentIndex) && order == paths
      {
        var path := paths[k];
        AmongSnoc(paths[..k], path, late);
        assert paths[..k + 1] == paths[..k] + [path];
        if nowMs - entries[path].firstSeenAtMs >= settings.maxPendingMs {
          pending := pending - {path};
          expired := expired + [path];
        }
      }
      assert paths[..|paths|] == paths;
      AmongMembers(paths, late);
      assert pending == entries - late;
      order := Among(paths, pending.Keys);
      AmongMembers(paths, pending.Keys);
    }

    method RememberContent(contentFingerprint: string, path: string)
      modifies this`contentIndex
      ensures State() == After(settings, old(State()), Remembered(contentFingerprint, path))
    {
      contentIndex := contentIndex[contentFingerprint := path];
    }

    method RestartWatcher()
      modifies this
      ensures State() == After(settings, old(State()), Restarted) && Valid()
    {
      pending, order := map[], [];
    }
  }

  // ---- whole runs ------------------------------------------------------------------------

  datatype Operation =
    | Observed(event: FileEvent, nowMs: int)
    | Ticked(nowMs: int)
    | Remembered(contentFingerprint: string, path: string)
    | Restarted

  function After(settings: Settings, s: DetectorState, op: Operation): DetectorState {
    match op
    case Observed(event, nowMs) => Observe(settings, s, event, nowMs).0
    case Ticked(nowMs) => s.(pending := s.pending - Expired(settings, s, nowMs))
    case Remembered(fp, path) => s.(contentIndex := s.contentIndex[fp := path])
    case Restarted => s.(pending := map[])
  }

  function RunOf(settings: Settings, ops: seq<Operation>): DetectorState {
    if ops == [] then DetectorState(map[], map[])
    else After(settings, RunOf(settings, ops[..|ops| - 1]), ops[|ops| - 1])
  }

  /** A restarted watcher counts from nothing: the next observation of any whole file is pending,
      however long it had been still. */
  lemma RestartCountsAnew(settings: Settings, ops: seq<Operation>, event: FileEvent, t: int)
    requires !IsPartialOrLock(event.path)
    ensures Observe(settings, RunOf(settings, ops + [Restarted]), event, t).1.Pending?
  {
    assert (ops + [Restarted])[..|ops|] == ops;
  }

  predicate PartialSuffix(suffix: string) {
    suffix == ".partial" || suffix == ".tmp" || suffix == ".lock" || suffix == ".crdownload"
  }

  /** Partial and lock files are told by the name after the last slash, of either kind: it begins
      with `~$` or ends in one of four extensions. */
  lemma PartialIffName(directory: string, name: string)
    requires RelativePaths.PlainName(name)
    ensures IsPartialOrLock(name) <==> PartialName(name)
    ensures IsPartialOrLock(directory + "/" + name) <==> PartialName(name)
    ensures IsPartialOrLock(directory + "\\" + name) <==> PartialName(name)
  {
    BaseNameFollows(directory, '/', name);
    BaseNameFollows(directory, '\\', name);
    PartialNameIs(name);
  }

  lemma {:induction false} BaseNameFollows(directory: string, slash: char, name: string)
    requires RelativePaths.PlainName(name) && (slash == '/' || slash == '\\')
    ensures BaseName(name) == name && BaseName(directory + [slash] + name) == name
  {
    var path := directory + [slash] + name;
    assert path[|directory|] == slash;
    if directory == "" {
      assert path[1..] == name;
    } else {
      assert path[1..] == directory[1..] + [slash] + name;
      BaseNameFollows(directory[1..], slash, name);
    }
  }

  ghost predicate PartialName(name: string) {
    || (exists rest: string :: name == "~$" + rest)
    || (exists stem: string, suffix: string :: PartialSuffix(suffix) && name == stem + suffix)
  }

  lemma PartialNameIs(name: string)
    ensures ("~$" <= name || exists suffix :: PartialSuffix(suffix) && RelativePaths.EndsWith(name, suffix))
            <==> PartialName(name)
  {
    if "~$" <= name {
      assert name == "~$" + name[2..];
    }
    if suffix :| PartialSuffix(suffix) && RelativePaths.EndsWith(name, suffix) {
      assert name == name[..|name| - |suffix|] + suffix;
    }
    if stem: string, suffix: string :| PartialSuffix(suffix) && name == stem + suffix {
      assert RelativePaths.EndsWith(name, suffix);
    }
  }

  /** What one observation answers, for every state: a partial file is refused; otherwise the answer
      is pending unless the same stamp has been shown for at least the debounce interval, and then it
      tells content that is remembered from content that is not. */
  lemma ObserveDecides(settings: Settings, s: DetectorState, e: FileEvent, nowMs: int)
    ensures var (after, o) := Observe(settings, s, e, nowMs);
            var whole, path := !IsPartialOrLock(e.path), e.path;
            var shown := path in s.pending && SameStamp(e, s.pending[path].size, s.pending[path].mtimeMs);
            var still := shown && s.pending[path].lastChangedAtMs + settings.debounceMs <= nowMs;
            && (o == PartialOrLock <==> !whole)
            && (o == Pending <==> whole && !still)
            && (o == Stable(path, e.size, e.mtimeMs) <==> whole && still && !Remembers(s, e))
            && (o.DuplicateContent? <==> whole && still && Remembers(s, e))
            && (o.DuplicateContent? ==> o.path == path && Some(o.contentFingerprint) == Content(s, e))
            && (!whole ==> after == s)
            && (whole && still ==> after == s.(pending := s.pending - {path}))
            && (whole && !still ==> after == s.(pending := s.pending[path := after.pending[path]]))
  {
    WholeDecides(settings, s, e, nowMs);
  }

  lemma WholeDecides(settings: Settings, s: DetectorState, e: FileEvent, nowMs: int)
    ensures var (after, o) := ObserveWhole(settings, s, e, nowMs);
            var path := e.path;
            var shown := path in s.pending && SameStamp(e, s.pending[path].size, s.pending[path].mtimeMs);
            var still := shown && s.pending[path].lastChangedAtMs + settings.debounceMs <= nowMs;
            && (if still then after == s.(pending := s.pending - {path})
                else path in after.pending && after == s.(pending := s.pending[path := after.pending[path]]))
            && (o == Pending <==> !still)
            && (o == Stable(path, e.size, e.mtimeMs) <==> still && !Remembers(s, e))
            && (o.DuplicateContent? <==> still && Remembers(s, e))
            && (o.DuplicateContent? ==> o.path == path && Some(o.contentFingerprint) == Content(s, e))
            && o != PartialOrLock
  {
  }

  /** The entry of a path that stays pending: the stamp is the event's, the time of the last change
      is now unless the stamp was already shown, and the first sight is kept. */
  lemma PendingEntryIs(settings: Settings, s: DetectorState, e: FileEvent, nowMs: int)
    requires Observe(settings, s, e, nowMs).1 == Pending
    ensures var after := Observe(settings, s, e, nowMs).0;
            && e.path in after.pending
            && var entry := after.pending[e.path];
            && SameStamp(e, entry.size, entry.mtimeMs) && entry.contentFingerprint == Content(s, e)
            && entry.lastChangedAtMs == (if FirstShows(s, e.path, e.size, e.mtimeMs) then nowMs else s.pending[e.path].lastChangedAtMs)
            && entry.firstSeenAtMs == if e.path in s.pending then s.pending[e.path].firstSeenAtMs else nowMs
  {
  }

  /** The content an event is known to have: its own, or what an earlier one told. */
  function Content(s: DetectorState, e: FileEvent): Option<string> {
    if e.contentFingerprint.Some? then e.contentFingerprint
    else if e.path in s.pending then s.pending[e.path].contentFingerprint
    else None
  }

  predicate Remembers(s: DetectorState, e: FileEvent) {
    Content(s, e).Some? && Content(s, e).value in s.contentIndex
  }

  /** The index knows exactly the contents that were remembered, with the path told last. */
  lemma {:induction false} ContentIsRemembered(settings: Settings, ops: seq<Operation>, content: string)
    ensures content in RunOf(settings, ops).contentIndex
            <==> exists i :: 0 <= i < |ops| && ops[i].Remembered? && ops[i].contentFingerprint == content
  {
    if ops != [] {
      ContentIsRemembered(settings, ops[..|ops| - 1], content);
      assert ops == ops[..|ops| - 1] + [ops[|ops| - 1]];
    }
  }

  /** Operation `i` showed `path` at `since` when it was not pending, and it has been since. */
  ghost predicate SeenSince(settings: Settings, ops: seq<Operation>, i: int, path: string, since: int) {
    && 0 <= i < |ops| && ops[i].Observed? && ops[i].event.path == path && ops[i].nowMs == since
    && path !in RunOf(settings, ops[..i]).pending
    && forall j :: i < j <= |ops| ==> path in RunOf(settings, ops[..j]).pending
  }

  lemma SightContinues(settings: Settings, ops: seq<Operation>, op: Operation, i: int, path: string, since: int)
    requires SeenSince(settings, ops, i, path, since) && path in RunOf(settings, ops + [op]).pending
    ensures SeenSince(settings, ops + [op], i, path, since)
  {
    var longer := ops + [op];
    assert longer[..i] == ops[..i];
    forall j | i < j <= |longer|
      ensures path in RunOf(settings, longer[..j]).pending
    {
      assert longer[..j] == if j <= |ops| then ops[..j] else longer;
    }
  }

  lemma SightBegins(settings: Settings, ops: seq<Operation>, op: Operation, path: string)
    requires path !in RunOf(settings, ops).pending && op.Observed? && op.event.path == path
    requires path in RunOf(settings, ops + [op]).pending
    ensures SeenSince(settings, ops + [op], |ops|, path, op.nowMs)
  {
    var longer := ops + [op];
    assert longer[..|ops|] == ops && longer[..|longer|] == longer;
  }

  lemma EntryKeepsFirstSight(settings: Settings, s: DetectorState, op: Operation, path: string)
    requires path in After(settings, s, op).pending
    ensures path in s.pending ==> After(settings, s, op).pending[path].firstSeenAtMs == s.pending[path].firstSeenAtMs
    ensures path !in s.pending ==> op.Observed? && op.event.path == path && After(settings, s, op).pending[path].firstSeenAtMs == op.nowMs
  {
  }

  /** Every pending entry knows when its path was first seen. */
  lemma {:induction false} FirstSightIsKept(settings: Settings, ops: seq<Operation>, path: string) returns (i: int)
    requires path in RunOf(settings, ops).pending
    ensures SeenSince(settings, ops, i, path, RunOf(settings, ops).pending[path].firstSeenAtMs)
  {
    var before, op := ops[..|ops| - 1], ops[|ops| - 1];
    assert ops == before + [op];
    var s := RunOf(settings, before);
    EntryKeepsFirstSight(settings, s, op, path);
    if path in s.pending {
      i := FirstSightIsKept(settings, before, path);
      SightContinues(settings, before, op, i, path, s.pending[path].firstSeenAtMs);
    } else {
      i := |ops| - 1;
      SightBegins(settings, before, op, path);
    }
  }

  lemma OneSight(settings: Settings, ops: seq<Operation>, i: int, j: int, path: string, t: int, u: int)
    requires SeenSince(settings, ops, i, path, t) && SeenSince(settings, ops, j, path, u)
    ensures i == j && t == u
  {
  }

  /** A tick, after any run, expires exactly the paths that have been pending without a break since
      they were first seen, at least the longest pending time ago. */
  lemma ExpiredIffSeenLongAgo(settings: Settings, ops: seq<Operation>, path: string, nowMs: int)
    ensures path in Expired(settings, RunOf(settings, ops), nowMs)
            <==> exists i, since :: SeenSince(settings, ops, i, path, since) && since + settings.maxPendingMs <= nowMs
  {
    if path in RunOf(settings, ops).pending {
      var i := FirstSightIsKept(settings, ops, path);
      var seen := RunOf(settings, ops).pending[path].firstSeenAtMs;
      forall k, since | SeenSince(settings, ops, k, path, since)
        ensures since == seen
      {
        OneSight(settings, ops, i, k, path, seen, since);
      }
    } else {
      assert ops[..|ops|] == ops;
    }
  }

  predicate SameStamp(e: FileEvent, size: nat, mtimeMs: nat) {
    e.size == size && e.mtimeMs == mtimeMs
  }

  /** Operation `i` is the observation of `path` that first showed this stamp, at `since`, and
      nothing after it showed another stamp of the path or restarted the watcher. */
  ghost predicate StampSince(settings: Settings, ops: seq<Operation>, i: int, path: string, size: nat, mtimeMs: nat,
                             since: int)
  {
    && 0 <= i < |ops|
    && ops[i].Observed? && ops[i].event.path == path && SameStamp(ops[i].event, size, mtimeMs) && ops[i].nowMs == since
    && FirstShows(RunOf(settings, ops[..i]), path, size, mtimeMs)
    && (forall j :: i < j < |ops| ==> Undisturbed(ops[j], path, size, mtimeMs))
  }

  ghost predicate FirstShows(s: DetectorState, path: string, size: nat, mtimeMs: nat) {
    path in s.pending ==> s.pending[path].size != size || s.pending[path].mtimeMs != mtimeMs
  }

  predicate Undisturbed(op: Operation, path: string, size: nat, mtimeMs: nat) {
    && !op.Restarted?
    && (op.Observed? && op.event.path == path ==> SameStamp(op.event, size, mtimeMs))
  }

  ghost predicate Anchored(settings: Settings, ops: seq<Operation>, path: string, entry: PendingEntry) {
    exists i :: StampSince(settings, ops, i, path, entry.size, entry.mtimeMs, entry.lastChangedAtMs)
  }

  lemma StampSurvives(settings: Settings, ops: seq<Operation>, op: Operation, path: string, entry: PendingEntry)
    requires Anchored(settings, ops, path, entry)
    requires Undisturbed(op, path, entry.size, entry.mtimeMs)
    ensures Anchored(settings, ops + [op], path, entry)
  {
    var i :| StampSince(settings, ops, i, path, entry.size, entry.mtimeMs, entry.lastChangedAtMs);
    var longer := ops + [op];
    assert longer[..i] == ops[..i];
    assert StampSince(settings, longer, i, path, entry.size, entry.mtimeMs, entry.lastChangedAtMs);
  }

  lemma StampStarts(settings: Settings, ops: seq<Operation>, event: FileEvent, nowMs: int, entry: PendingEntry)
    requires FirstShows(RunOf(settings, ops), event.path, event.size, event.mtimeMs)
    requires SameStamp(event, entry.size, entry.mtimeMs) && entry.lastChangedAtMs == nowMs
    ensures Anchored(settings, ops + [Observed(event, nowMs)], event.path, entry)
  {
    var longer := ops + [Observed(event, nowMs)];
    assert longer[..|ops|] == ops;
    assert StampSince(settings, longer, |ops|, event.path, entry.size, entry.mtimeMs, entry.lastChangedAtMs);
  }

  /** What an observed whole file does to the entry of one path. */
  lemma WholeKeepsEntries(settings: Settings, s: DetectorState, e: FileEvent, nowMs: int, path: string)
    ensures var after := ObserveWhole(settings, s, e, nowMs).0;
            path in after.pending ==>
              var entry := after.pending[path];
              if e.path == path && FirstShows(s, path, e.size, e.mtimeMs)
              then SameStamp(e, entry.size, entry.mtimeMs) && entry.lastChangedAtMs == nowMs
              else
                && path in s.pending
                && entry.(contentFingerprint := None) == s.pending[path].(contentFingerprint := None)
                && (e.path == path ==> SameStamp(e, entry.size, entry.mtimeMs))
  {
  }

  /** What one operation does to the entry of one path. */
  lemma EntryStep(settings: Settings, s: DetectorState, op: Operation, path: string)
    requires path in After(settings, s, op).pending
    requires path in s.pending ==> !IsPartialOrLock(path)
    ensures !IsPartialOrLock(path)
    ensures var entry := After(settings, s, op).pending[path];
            if op.Observed? && op.event.path == path && FirstShows(s, path, op.event.size, op.event.mtimeMs)
            then SameStamp(op.event, entry.size, entry.mtimeMs) && entry.lastChangedAtMs == op.nowMs
            else
              && path in s.pending
              && entry.(contentFingerprint := None) == s.pending[path].(contentFingerprint := None)
              && Undisturbed(op, path, entry.size, entry.mtimeMs)
  {
    if op.Observed? {
      WholeKeepsEntries(settings, s, op.event, op.nowMs, path);
    }
  }

  /** Every pending entry is anchored in the run that made it. */
  lemma {:induction false} PendingIsAnchored(settings: Settings, ops: seq<Operation>, path: string)
    requires path in RunOf(settings, ops).pending
    ensures Anchored(settings, ops, path, RunOf(settings, ops).pending[path])
    ensures !IsPartialOrLock(path)
  {
    var before, op := ops[..|ops| - 1], ops[|ops| - 1];
    var s, entry := RunOf(settings, before), RunOf(settings, ops).pending[path];
    assert ops == before + [op];
    if path in s.pending {
      PendingIsAnchored(settings, before, path);
    }
    EntryStep(settings, s, op, path);
    if op.Observed? && op.event.path == path && FirstShows(s, path, op.event.size, op.event.mtimeMs) {
      StampStarts(settings, before, op.event, op.nowMs, entry);
    } else {
      assert Anchored(settings, before, path, s.pending[path]);
      StampSurvives(settings, before, op, path, s.pending[path]);
    }
  }

  lemma ReleasedEntry(settings: Settings, s: DetectorState, event: FileEvent, t: int)
    requires Observe(settings, s, event, t).1.Stable?
    ensures event.path in s.pending
    ensures var entry := s.pending[event.path];
            entry.size == event.size && entry.mtimeMs == event.mtimeMs && entry.lastChangedAtMs <= t - settings.debounceMs
  {
  }

  /** STABLE at time `t` means the file was still: after any run of operations, the same stamp was
      first shown at some `since` no later than `t - debounce`, and since then no observation of
      the path carried another stamp and the watcher was not restarted. */
  lemma StableMeansStill(settings: Settings, ops: seq<Operation>, event: FileEvent, t: int)
    requires Observe(settings, RunOf(settings, ops), event, t).1.Stable?
    ensures exists i, since :: since <= t - settings.debounceMs
              && StampSince(settings, ops, i, event.path, event.size, event.mtimeMs, since)
  {
    ReleasedEntry(settings, RunOf(settings, ops), event, t);
    PendingIsAnchored(settings, ops, event.path);
    var since := RunOf(settings, ops).pending[event.path].lastChangedAtMs;
    var i :| StampSince(settings, ops, i, event.path, event.size, event.mtimeMs, since);
    assert since <= t - settings.debounceMs;
  }
}
