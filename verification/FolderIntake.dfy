/** Folder intake: each admission is two atomic sections around the awaited fingerprint, and any
    number of admissions overlap. */
module FolderIntake {
  import opened Common
  import opened StableFileDetector
  import Decimal
  import RelativePaths

  datatype Profile = Csv | Xlsx

  datatype Reason =
    | PathEscape | UnsupportedProfile | SchemaDrift | PeriodOverlap | DuplicateKey | AmbiguousMapping
    | MalformedContent | PartialOrLockFile | MacroEnabled | ExternalLink | ProtectedContent

  /** What reading the file answers. */
  datatype Fingerprint =
    | Read(contentFingerprint: string, schemaFingerprint: string, profile: Profile,
           periodKey: Option<string>, duplicateKey: Option<string>)
    | Refused(reason: Reason)

  datatype Decision =
    | Admitted(path: string, profile: Profile, contentFingerprint: string, eventId: string)
    | Quarantine(reason: Reason, path: string, eventId: string)
    | DuplicateEvent(path: string)
    | StillPending(path: string)

  datatype ReviewItem = ReviewItem(eventId: string, bindingId: string, reason: Reason, profileHint: Option<Profile>, observedAtMs: int)

  datatype Arrival = Arrival(path: string, size: nat, mtimeMs: nat, nowMs: int)

  /** The binding an intake service is created for; `debounceMs` is the manifest's. */
  datatype Binding = Binding(
    bindingId: string,
    inside: string -> bool,
    profiles: set<Profile>,
    schemas: set<string>,
    debounceMs: int,
    detector: Settings)

  /** The random event id and the clock reading a decision uses. */
  datatype Stamp = Stamp(eventId: string, atMs: int)

  datatype IntakeState = IntakeState(
    detector: DetectorState,
    events: set<string>,
    periods: set<string>,
    duplicates: set<string>,
    queue: seq<ReviewItem>)

  function LowerCase(s: string): string {
    seq(|s|, i requires 0 <= i < |s| => if 'A' <= s[i] <= 'Z' then (s[i] as int + 32) as char else s[i])
  }

  function ProfileFromPath(path: string): Option<Profile> {
    var lower := LowerCase(path);
    if RelativePaths.EndsWith(lower, ".csv") then Some(Csv)
    else if RelativePaths.EndsWith(lower, ".xlsx") then Some(Xlsx)
    else None
  }

  function EventKeyOf(a: Arrival): string {
    a.path + "|" + Decimal.Render(a.size) + "|" + Decimal.Render(a.mtimeMs)
  }

  function Quarantined(b: Binding, s: IntakeState, path: string, reason: Reason, stamp: Stamp): (IntakeState, Decision) {
    (s.(queue := s.queue + [ReviewItem(stamp.eventId, b.bindingId, reason, ProfileFromPath(path), stamp.atMs)]),
     Quarantine(reason, path, stamp.eventId))
  }

  /** Up to the await: a decision, or `None` when the fingerprint is awaited. */
  function Begin(b: Binding, s: IntakeState, a: Arrival, stamp: Stamp): (IntakeState, Option<Decision>) {
    if !b.inside(a.path) then
      var (s', d) := Quarantined(b, s, a.path, PathEscape, stamp);
      (s', Some(d))
    else if ProfileFromPath(a.path).None? || ProfileFromPath(a.path).value !in b.profiles then
      var (s', d) := Quarantined(b, s, a.path, UnsupportedProfile, stamp);
      (s', Some(d))
    else if EventKeyOf(a) in s.events then (s, Some(DuplicateEvent(a.path)))
    else (s, None)
  }

  /** Asks the detector, a second time one debounce later if it is still pending. Partial and lock
      files are told by their path, so that answer is always the first one. */
  function ObserveTwice(b: Binding, d: DetectorState, event: FileEvent, nowMs: int): (DetectorState, Observation) {
    var (d', first) := Observe(b.detector, d, event, nowMs);
    if first.Pending? then Observe(b.detector, d', event, nowMs + b.debounceMs) else (d', first)
  }

  /** The first check a fingerprint fails against the manifest and the ledgers, if any. */
  function FingerprintProblem(b: Binding, s: IntakeState, f: Fingerprint): Option<Reason> {
    if f.Refused? then Some(f.reason)
    else if f.schemaFingerprint !in b.schemas then Some(SchemaDrift)
    else if f.periodKey.Some? && f.periodKey.value in s.periods then Some(PeriodOverlap)
    else if f.duplicateKey.Some? && f.duplicateKey.value in s.duplicates then Some(DuplicateKey)
    else None
  }

  /** What follows from the detector's answer. */
  function Conclude(b: Binding, s: IntakeState, a: Arrival, f: Fingerprint, answer: Observation, stamp: Stamp)
    : (IntakeState, Decision)
    requires f.Read?
  {
    match answer
    case Pending => (s, StillPending(a.path))
    case DuplicateContent(_, _) => Quarantined(b, s, a.path, DuplicateKey, stamp)
    case PartialOrLock => Quarantined(b, s, a.path, PartialOrLockFile, stamp)
    case Stable(_, _, _) =>
      (s.(detector := s.detector.(contentIndex := s.detector.contentIndex[f.contentFingerprint := a.path]),
          events := s.events + {EventKeyOf(a)},
          periods := s.periods + Elements(f.periodKey),
          duplicates := s.duplicates + Elements(f.duplicateKey)),
       Admitted(a.path, f.profile, f.contentFingerprint, stamp.eventId))
  }

  function EventOf(a: Arrival, f: Fingerprint): FileEvent
    requires f.Read?
  {
    FileEvent(a.path, a.size, a.mtimeMs, Some(f.contentFingerprint))
  }

  /** From the await on. */
  function Finish(b: Binding, s: IntakeState, a: Arrival, f: Fingerprint, stamp: Stamp): (IntakeState, Decision) {
    var problem := FingerprintProblem(b, s, f);
    if problem.Some? then Quarantined(b, s, a.path, problem.value, stamp)
    else
      var (d, answer) := ObserveTwice(b, s.detector, EventOf(a, f), a.nowMs);
      Conclude(b, s.(detector := d), a, f, answer, stamp)
  }

  function Elements(o: Option<string>): set<string> {
    match o
    case None => {}
    case Some(v) => {v}
  }

  class FolderIntakeService {
    const binding: Binding
    const detector: Detector
    var eventLedger: set<string>
    var periodLedger: set<string>
    var duplicateKeyLedger: set<string>
    var reviewQueue: seq<ReviewItem>

    constructor (binding: Binding, detector: Detector)
      ensures this.binding == binding && this.detector == detector
      ensures State() == IntakeState(detector.State(), {}, {}, {}, [])
    {
      this.binding, this.detector := binding, detector;
      eventLedger, periodLedger, duplicateKeyLedger, reviewQueue := {}, {}, {}, [];
    }

    ghost function State(): IntakeState
      reads this, detector
    {
      IntakeState(detector.State(), eventLedger, periodLedger, duplicateKeyLedger, reviewQueue)
    }

    method QuarantineFile(path: string, reason: Reason, stamp: Stamp) returns (d: Decision)
      modifies this
      ensures (State(), d) == Quarantined(binding, old(State()), path, reason, stamp)
    {
      reviewQueue := reviewQueue + [ReviewItem(stamp.eventId, binding.bindingId, reason, ProfileFromPath(path), stamp.atMs)];
      d := Quarantine(reason, path, stamp.eventId);
    }

    /** The section of `admitStableFile` before its await. */
    method BeginAdmission(a: Arrival, stamp: Stamp) returns (d: Option<Decision>)
      modifies this
      ensures (State(), d) == Begin(binding, old(State()), a, stamp)
    {
      if !binding.inside(a.path) {
        var q := QuarantineFile(a.path, PathEscape, stamp);
        return Some(q);
      }
      var hint := ProfileFromPath(a.path);
      if hint == None || hint.value !in binding.profiles {
        var q := QuarantineFile(a.path, UnsupportedProfile, stamp);
        return Some(q);
      }
      if EventKeyOf(a) in eventLedger {
        return Some(DuplicateEvent(a.path));
      }
      return None;
    }

    method CheckFingerprint(f: Fingerprint) returns (problem: Option<Reason>)
      ensures problem == FingerprintProblem(binding, State(), f)
    {
      if f.Refused? {
        return Some(f.reason);
      }
      if f.schemaFingerprint !in binding.schemas {
        return Some(SchemaDrift);
      }
      if f.periodKey.Some? && f.periodKey.value in periodLedger {
        return Some(PeriodOverlap);
      }
      if f.duplicateKey.Some? && f.duplicateKey.value in duplicateKeyLedger {
        return Some(DuplicateKey);
      }
      return None;
    }

    method LookTwice(event: FileEvent, nowMs: int) returns (observation: Observation)
      requires detector.settings == binding.detector && detector.Valid()
      modifies detector
      ensures detector.Valid()
      ensures (detector.State(), observation) == ObserveTwice(binding, old(detector.State()), event, nowMs)
    {
      observation := detector.ObserveFile(event, nowMs);
      ghost var first := (detector.State(), observation);
      assert first == Observe(binding.detector, old(detector.State()), event, nowMs);
      if observation == Pending {
        observation := detector.ObserveFile(event, nowMs + binding.debounceMs);
      }
    }

    method Settle(a: Arrival, f: Fingerprint, observation: Observation, stamp: Stamp) returns (d: Decision)
      requires f.Read? && detector.Valid()
      modifies this, detector
      ensures detector.Valid()
      ensures (State(), d) == Conclude(binding, old(State()), a, f, observation, stamp)
    {
      match observation {
        case Pending => return StillPending(a.path);
        case DuplicateContent(_, _) => d := QuarantineFile(a.path, DuplicateKey, stamp); return;
        case PartialOrLock => d := QuarantineFile(a.path, PartialOrLockFile, stamp); return;
        case Stable(_, _, _) =>
      }
      eventLedger := eventLedger + {EventKeyOf(a)};
      detector.RememberContent(f.contentFingerprint, a.path);
      if f.periodKey.Some? {
        periodLedger := periodLedger + {f.periodKey.value};
      }
      if f.duplicateKey.Some? {
        duplicateKeyLedger := duplicateKeyLedger + {f.duplicateKey.value};
      }
      assert periodLedger == old(periodLedger) + Elements(f.periodKey);
      assert duplicateKeyLedger == old(duplicateKeyLedger) + Elements(f.duplicateKey);
      d := Admitted(a.path, f.profile, f.contentFingerprint, stamp.eventId);
    }

    /** The section of `admitStableFile` after its await. */
    method FinishAdmission(a: Arrival, f: Fingerprint, stamp: Stamp) returns (d: Decision)
      requires detector.settings == binding.detector && detector.Valid()
      modifies this, detector
      ensures detector.Valid()
      ensures (State(), d) == Finish(binding, old(State()), a, f, stamp)
    {
      var problem := CheckFingerprint(f);
      if problem.Some? {
        d := QuarantineFile(a.path, problem.value, stamp);
        return;
      }
      var observation := LookTwice(EventOf(a, f), a.nowMs);
      d := Settle(a, f, observation, stamp);
    }
  }

  // ---- overlapping admissions ------------------------------------------------------------

  /** A decision as it was given, with the keys of the file it was about. */
  datatype Entry = Entry(decision: Decision, eventKey: string, periodKey: Option<string>, duplicateKey: Option<string>)

  /** The service, the admissions waiting for a fingerprint, and every decision so far. */
  datatype World = World(intake: IntakeState, waiting: map<nat, Arrival>, log: seq<Entry>)

  datatype Step =
    | Start(ticket: nat, arrival: Arrival, stamp: Stamp)
    | Resume(ticket: nat, fingerprint: Fingerprint, stamp: Stamp)
    | Disturb(operation: Operation)  // the detector used, ticked or restarted by someone else

  const EMPTY := World(IntakeState(DetectorState(map[], map[]), {}, {}, {}, []), map[], [])

  function Next(b: Binding, w: World, step: Step): World {
    match step
    case Start(ticket, a, stamp) =>
      if ticket in w.waiting then w
      else
        var (s, d) := Begin(b, w.intake, a, stamp);
        if d.None? then World(s, w.waiting[ticket := a], w.log)
        else World(s, w.waiting, w.log + [Entry(d.value, EventKeyOf(a), None, None)])
    case Resume(ticket, f, stamp) =>
      if ticket !in w.waiting then w
      else
        var a := w.waiting[ticket];
        var (s, d) := Finish(b, w.intake, a, f, stamp);
        World(s, w.waiting - {ticket}, w.log + [EntryOf(d, a, f)])
    case Disturb(op) =>
      w.(intake := w.intake.(detector := After(b.detector, w.intake.detector, op)))
  }

  function Play(b: Binding, steps: seq<Step>): World {
    if steps == [] then EMPTY else Next(b, Play(b, steps[..|steps| - 1]), steps[|steps| - 1])
  }

  /** Two admissions that share a content fingerprint, a period key or a duplicate key. */
  predicate Clash(x: Entry, y: Entry) {
    && x.decision.Admitted? && y.decision.Admitted?
    && (|| x.decision.contentFingerprint == y.decision.contentFingerprint
        || (x.periodKey.Some? && x.periodKey == y.periodKey)
        || (x.duplicateKey.Some? && x.duplicateKey == y.duplicateKey))
  }

  /** The ledgers know everything an admission used. */
  predicate Known(s: IntakeState, e: Entry) {
    e.decision.Admitted? ==>
      && e.decision.contentFingerprint in s.detector.contentIndex
      && Elements(e.periodKey) <= s.periods
      && Elements(e.duplicateKey) <= s.duplicates
      && e.eventKey in s.events
  }

  /** The review queue, read off the decisions. */
  function ReviewsOf(log: seq<Entry>): seq<(string, Reason)> {
    if log == [] then []
    else
      var init, d := ReviewsOf(log[..|log| - 1]), log[|log| - 1].decision;
      if d.Quarantine? then init + [(d.eventId, d.reason)] else init
  }

  function Reviews(queue: seq<ReviewItem>): seq<(string, Reason)> {
    seq(|queue|, i requires 0 <= i < |queue| => (queue[i].eventId, queue[i].reason))
  }

  ghost predicate Sound(w: World) {
    && (forall i :: 0 <= i < |w.log| ==> Known(w.intake, w.log[i]))
    && (forall i, j :: 0 <= i < j < |w.log| ==> !Clash(w.log[i], w.log[j]))
    && Reviews(w.intake.queue) == ReviewsOf(w.log)
  }

  lemma ObserveAnswers(settings: Settings, d: DetectorState, e: FileEvent, nowMs: int)
    requires e.contentFingerprint.Some?
    ensures Observe(settings, d, e, nowMs).0.contentIndex == d.contentIndex
    ensures Observe(settings, d, e, nowMs).1.Stable? ==> e.contentFingerprint.value !in d.contentIndex
  {
  }

  lemma TwoLooksAnswer(b: Binding, d: DetectorState, e: FileEvent, nowMs: int)
    requires e.contentFingerprint.Some?
    ensures var (d', answer) := ObserveTwice(b, d, e, nowMs);
            d'.contentIndex == d.contentIndex && (answer.Stable? ==> e.contentFingerprint.value !in d.contentIndex)
  {
    ObserveAnswers(b.detector, d, e, nowMs);
    ObserveAnswers(b.detector, Observe(b.detector, d, e, nowMs).0, e, nowMs + b.debounceMs);
  }

  /** The queue gained one item at its end, the one of this quarantine. */
  predicate QueuesOne(before: seq<ReviewItem>, after: seq<ReviewItem>, d: Decision)
    requires d.Quarantine?
  {
    && |after| == |before| + 1 && before <= after
    && after[|before|].eventId == d.eventId && after[|before|].reason == d.reason
  }

  lemma ConcludeAdmits(b: Binding, s: IntakeState, a: Arrival, f: Fingerprint, answer: Observation, stamp: Stamp)
    requires f.Read?
    ensures var (s', d) := Conclude(b, s, a, f, answer, stamp);
            && (d.Admitted? <==> answer.Stable?)
            && (d.Admitted? ==>
                  && d.contentFingerprint == f.contentFingerprint
                  && s'.detector.contentIndex.Keys == s.detector.contentIndex.Keys + {f.contentFingerprint}
                  && s'.periods == s.periods + Elements(f.periodKey)
                  && s'.duplicates == s.duplicates + Elements(f.duplicateKey)
                  && s'.events == s.events + {EventKeyOf(a)})
            && (!d.Admitted? ==>
                  && s'.detector == s.detector
                  && s'.periods == s.periods && s'.duplicates == s.duplicates && s'.events == s.events)
            && (d.Quarantine? ==> QueuesOne(s.queue, s'.queue, d))
            && (!d.Quarantine? ==> s'.queue == s.queue)
  {
    var (s', d) := Conclude(b, s, a, f, answer, stamp);
    if d.Quarantine? {
      assert s'.queue == s.queue + [ReviewItem(stamp.eventId, b.bindingId, d.reason, ProfileFromPath(a.path), stamp.atMs)];
    }
  }

  /** An admission is only given for a fingerprint, period and duplicate key not seen before, and
      the ledgers only grow, by exactly what it used. */
  lemma FinishAdmitsOnce(b: Binding, s: IntakeState, a: Arrival, f: Fingerprint, stamp: Stamp)
    ensures var (s', d) := Finish(b, s, a, f, stamp);
            && (d.Admitted? ==>
                  && f.Read? && d.contentFingerprint == f.contentFingerprint
                  && f.contentFingerprint !in s.detector.contentIndex
                  && Elements(f.periodKey) !! s.periods && Elements(f.duplicateKey) !! s.duplicates
                  && s'.detector.contentIndex.Keys == s.detector.contentIndex.Keys + {f.contentFingerprint}
                  && s'.periods == s.periods + Elements(f.periodKey)
                  && s'.duplicates == s.duplicates + Elements(f.duplicateKey)
                  && s'.events == s.events + {EventKeyOf(a)})
            && (!d.Admitted? ==>
                  && s'.detector.contentIndex == s.detector.contentIndex
                  && s'.periods == s.periods && s'.duplicates == s.duplicates && s'.events == s.events)
            && (d.Quarantine? ==> QueuesOne(s.queue, s'.queue, d))
            && (!d.Quarantine? ==> s'.queue == s.queue)
  {
    if FingerprintProblem(b, s, f).None? {
      TwoLooksAnswer(b, s.detector, EventOf(a, f), a.nowMs);
      var (d, answer) := ObserveTwice(b, s.detector, EventOf(a, f), a.nowMs);
      ConcludeAdmits(b, s.(detector := d), a, f, answer, stamp);
    } else {
      QuarantineAdds(b, s, a.path, FingerprintProblem(b, s, f).value, stamp);
    }
  }

  lemma QuarantineAdds(b: Binding, s: IntakeState, path: string, reason: Reason, stamp: Stamp)
    ensures var (s', d) := Quarantined(b, s, path, reason, stamp);
            && s' == s.(queue := s'.queue) && d.Quarantine?
            && QueuesOne(s.queue, s'.queue, d)
  {
  }

  lemma LogExtends(w: World, s: IntakeState, waiting: map<nat, Arrival>, e: Entry)
    requires Sound(w)
    requires forall i :: 0 <= i < |w.log| ==> Known(s, w.log[i]) && !Clash(w.log[i], e)
    requires Known(s, e)
    requires Reviews(s.queue)
             == Reviews(w.intake.queue) + if e.decision.Quarantine? then [(e.decision.eventId, e.decision.reason)] else []
    ensures Sound(World(s, waiting, w.log + [e]))
  {
    var log := w.log + [e];
    assert log[..|log| - 1] == w.log;
    forall i, j | 0 <= i < j < |log|
      ensures !Clash(log[i], log[j])
    {
      if j < |w.log| {
        assert !Clash(w.log[i], w.log[j]);
      }
    }
  }

  lemma StartStaysSound(b: Binding, w: World, ticket: nat, a: Arrival, stamp: Stamp)
    requires Sound(w)
    ensures Sound(Next(b, w, Start(ticket, a, stamp)))
  {
    var (s, d) := Begin(b, w.intake, a, stamp);
    if ticket !in w.waiting && d.Some? {
      var e := Entry(d.value, EventKeyOf(a), None, None);
      assert Next(b, w, Start(ticket, a, stamp)) == World(s, w.waiting, w.log + [e]);
      assert forall i :: 0 <= i < |w.log| ==> Known(s, w.log[i]) by {
        assert forall i :: 0 <= i < |w.log| ==> Known(w.intake, w.log[i]);
      }
      LogExtends(w, s, w.waiting, e);
    }
  }

  lemma ReviewsGrow(before: seq<ReviewItem>, after: seq<ReviewItem>, d: Decision)
    requires d.Quarantine? && QueuesOne(before, after, d)
    ensures Reviews(after) == Reviews(before) + [(d.eventId, d.reason)]
  {
    assert after[..|before|] == before;
  }

  /** The entry a resumed admission writes. */
  function EntryOf(d: Decision, a: Arrival, f: Fingerprint): Entry {
    if f.Read? then Entry(d, EventKeyOf(a), f.periodKey, f.duplicateKey) else Entry(d, EventKeyOf(a), None, None)
  }

  lemma KnownStays(b: Binding, s: IntakeState, a: Arrival, f: Fingerprint, stamp: Stamp, e: Entry)
    requires Known(s, e)
    ensures var (s', d) := Finish(b, s, a, f, stamp); Known(s', e) && !Clash(e, EntryOf(d, a, f))
  {
    FinishAdmitsOnce(b, s, a, f, stamp);
  }

  lemma FinishIsKnown(b: Binding, s: IntakeState, a: Arrival, f: Fingerprint, stamp: Stamp)
    ensures var (s', d) := Finish(b, s, a, f, stamp);
            && Known(s', EntryOf(d, a, f))
            && Reviews(s'.queue) == Reviews(s.queue) + if d.Quarantine? then [(d.eventId, d.reason)] else []
  {
    FinishAdmitsOnce(b, s, a, f, stamp);
    var (s', d) := Finish(b, s, a, f, stamp);
    if d.Quarantine? {
      ReviewsGrow(s.queue, s'.queue, d);
    }
  }

  lemma ResumeStaysSound(b: Binding, w: World, ticket: nat, f: Fingerprint, stamp: Stamp)
    requires Sound(w)
    ensures Sound(Next(b, w, Resume(ticket, f, stamp)))
  {
    if ticket in w.waiting {
      var a := w.waiting[ticket];
      var (s, d) := Finish(b, w.intake, a, f, stamp);
      FinishIsKnown(b, w.intake, a, f, stamp);
      forall i | 0 <= i < |w.log|
        ensures Known(s, w.log[i]) && !Clash(w.log[i], EntryOf(d, a, f))
      {
        KnownStays(b, w.intake, a, f, stamp, w.log[i]);
      }
      LogExtends(w, s, w.waiting - {ticket}, EntryOf(d, a, f));
    }
  }

  lemma DisturbStaysSound(b: Binding, w: World, op: Operation)
    requires Sound(w)
    ensures Sound(Next(b, w, Disturb(op)))
  {
    var w' := Next(b, w, Disturb(op));
    forall i | 0 <= i < |w.log|
      ensures Known(w'.intake, w'.log[i])
    {
      assert Known(w.intake, w.log[i]);
    }
  }

  lemma {:induction false} PlayIsSound(b: Binding, steps: seq<Step>)
    ensures Sound(Play(b, steps))
  {
    if steps != [] {
      var w := Play(b, steps[..|steps| - 1]);
      PlayIsSound(b, steps[..|steps| - 1]);
      match steps[|steps| - 1]
      case Start(ticket, a, stamp) => StartStaysSound(b, w, ticket, a, stamp);
      case Resume(ticket, f, stamp) => ResumeStaysSound(b, w, ticket, f, stamp);
      case Disturb(op) => DisturbStaysSound(b, w, op);
    }
  }

  /** In every interleaving, with anyone else using the detector in between, at most one file is
      admitted per content fingerprint, per period key and per duplicate key. */
  lemma AtMostOneAdmission(b: Binding, steps: seq<Step>, i: nat, j: nat)
    requires i < j < |Play(b, steps).log|
    ensures !Clash(Play(b, steps).log[i], Play(b, steps).log[j])
  {
    PlayIsSound(b, steps);
  }

  /** The review queue holds exactly one item for each QUARANTINE decision, in their order and
      with their reasons. */
  lemma OneReviewPerQuarantine(b: Binding, steps: seq<Step>)
    ensures Reviews(Play(b, steps).intake.queue) == ReviewsOf(Play(b, steps).log)
  {
    PlayIsSound(b, steps);
  }

  /** No step removes or changes a review item. */
  lemma ReviewQueueOnlyGrows(b: Binding, w: World, step: Step)
    ensures w.intake.queue <= Next(b, w, step).intake.queue
  {
    if step.Resume? && step.ticket in w.waiting {
      FinishAdmitsOnce(b, w.intake, w.waiting[step.ticket], step.fingerprint, step.stamp);
    }
  }

  // ---- what each section decides ---------------------------------------------------------

  /** `c` is the lower-case letter, the sign or the digit `lower` in either case. */
  predicate InEitherCase(c: char, lower: char) {
    c == lower || ('a' <= lower <= 'z' && c as int == lower as int - 32)
  }

  /** The path ends in `suffix`, in either case. */
  predicate HasSuffix(path: string, suffix: string) {
    |suffix| <= |path| && forall i :: 0 <= i < |suffix| ==> InEitherCase(path[|path| - |suffix| + i], suffix[i])
  }

  lemma LowerSuffix(path: string, suffix: string)
    requires forall i :: 0 <= i < |suffix| ==> !('A' <= suffix[i] <= 'Z')
    ensures RelativePaths.EndsWith(LowerCase(path), suffix) <==> HasSuffix(path, suffix)
  {
    var lower := LowerCase(path);
    if |suffix| <= |path| {
      var tail := lower[|lower| - |suffix|..];
      assert forall i :: 0 <= i < |suffix| ==> tail[i] == lower[|path| - |suffix| + i];
      assert tail == suffix <==> forall i :: 0 <= i < |suffix| ==> tail[i] == suffix[i];
      assert forall i :: 0 <= i < |suffix| ==> (tail[i] == suffix[i] <==> InEitherCase(path[|path| - |suffix| + i], suffix[i]));
    }
  }

  lemma LastLetter(path: string, suffix: string)
    requires suffix != ""
    ensures HasSuffix(path, suffix) ==> path != "" && InEitherCase(path[|path| - 1], suffix[|suffix| - 1])
  {
    if HasSuffix(path, suffix) {
      assert InEitherCase(path[|path| - |suffix| + (|suffix| - 1)], suffix[|suffix| - 1]);
    }
  }

  /** A file's profile is told by its extension, in either case. */
  lemma ProfileIffSuffix(path: string)
    ensures ProfileFromPath(path) == Some(Csv) <==> HasSuffix(path, ".csv")
    ensures ProfileFromPath(path) == Some(Xlsx) <==> HasSuffix(path, ".xlsx")
  {
    LowerSuffix(path, ".csv");
    LowerSuffix(path, ".xlsx");
    LastLetter(path, ".csv");
    LastLetter(path, ".xlsx");
  }

  /** The queue after a decision: one more item, saying what the decision says, for a quarantine. */
  ghost predicate Queued(b: Binding, before: seq<ReviewItem>, after: seq<ReviewItem>, d: Option<Decision>, stamp: Stamp) {
    if d.Some? && d.value.Quarantine? then
      && |after| == |before| + 1 && after[..|before|] == before
      && after[|before|] == ReviewItem(d.value.eventId, b.bindingId, d.value.reason, ProfileFromPath(d.value.path), stamp.atMs)
    else after == before
  }

  lemma BeginCases(b: Binding, s: IntakeState, a: Arrival, stamp: Stamp, supported: bool)
    requires supported <==> ProfileFromPath(a.path).Some? && ProfileFromPath(a.path).value in b.profiles
    ensures var (after, d) := Begin(b, s, a, stamp);
            && (d == Some(Quarantine(PathEscape, a.path, stamp.eventId)) <==> !b.inside(a.path))
            && (d == Some(Quarantine(UnsupportedProfile, a.path, stamp.eventId)) <==> b.inside(a.path) && !supported)
            && (d == Some(DuplicateEvent(a.path)) <==> b.inside(a.path) && supported && EventKeyOf(a) in s.events)
            && (d == None <==> b.inside(a.path) && supported && EventKeyOf(a) !in s.events)
            && after == s.(queue := after.queue) && Queued(b, s.queue, after.queue, d, stamp)
  {
    QuarantineQueues(b, s, a.path, PathEscape, stamp);
    QuarantineQueues(b, s, a.path, UnsupportedProfile, stamp);
  }

  predicate Supported(b: Binding, path: string) {
    (Csv in b.profiles && HasSuffix(path, ".csv")) || (Xlsx in b.profiles && HasSuffix(path, ".xlsx"))
  }

  lemma SupportedIsRead(b: Binding, path: string)
    ensures Supported(b, path) <==> ProfileFromPath(path).Some? && ProfileFromPath(path).value in b.profiles
  {
    ProfileIffSuffix(path);
  }

  /** Before its await an admission is refused if and only if the path escapes, then if its extension
      is not one of a supported profile; an event already admitted is a duplicate; any other file's
      fingerprint is awaited. Nothing but the queue changes. */
  lemma BeginDecides(b: Binding, s: IntakeState, a: Arrival, stamp: Stamp, eventKey: string)
    requires eventKey == a.path + "|" + Decimal.Render(a.size) + "|" + Decimal.Render(a.mtimeMs)
    ensures var (after, d) := Begin(b, s, a, stamp);
            var inside, supported := b.inside(a.path), Supported(b, a.path);
            && (d == Some(Quarantine(PathEscape, a.path, stamp.eventId)) <==> !inside)
            && (d == Some(Quarantine(UnsupportedProfile, a.path, stamp.eventId)) <==> inside && !supported)
            && (d == Some(DuplicateEvent(a.path)) <==> inside && supported && eventKey in s.events)
            && (d == None <==> inside && supported && eventKey !in s.events)
            && after == s.(queue := after.queue) && Queued(b, s.queue, after.queue, d, stamp)
  {
    SupportedIsRead(b, a.path);
    BeginCases(b, s, a, stamp, Supported(b, a.path));
  }

  /** What the detector's answer leads to. */
  function Answered(answer: Observation, a: Arrival, f: Fingerprint, stamp: Stamp): Decision
    requires f.Read?
  {
    match answer
    case PartialOrLock => Quarantine(PartialOrLockFile, a.path, stamp.eventId)
    case DuplicateContent(_, _) => Quarantine(DuplicateKey, a.path, stamp.eventId)
    case Pending => StillPending(a.path)
    case Stable(_, _, _) => Admitted(a.path, f.profile, f.contentFingerprint, stamp.eventId)
  }

  lemma QuarantineQueues(b: Binding, s: IntakeState, path: string, reason: Reason, stamp: Stamp)
    ensures var (after, d) := Quarantined(b, s, path, reason, stamp);
            && after == s.(queue := after.queue)
            && d == Quarantine(reason, path, stamp.eventId) && Queued(b, s.queue, after.queue, Some(d), stamp)
  {
  }

  lemma ConcludeQueues(b: Binding, s: IntakeState, a: Arrival, f: Fingerprint, answer: Observation, stamp: Stamp)
    requires f.Read?
    ensures var (after, d) := Conclude(b, s, a, f, answer, stamp);
            d == Answered(answer, a, f, stamp) && Queued(b, s.queue, after.queue, Some(d), stamp)
  {
    if answer.PartialOrLock? {
      QuarantineQueues(b, s, a.path, PartialOrLockFile, stamp);
    } else if answer.DuplicateContent? {
      QuarantineQueues(b, s, a.path, DuplicateKey, stamp);
    }
  }

  /** After its await an admission is refused for the first of: the reason the reading gives, a
      foreign schema, a period already taken, a duplicate key already taken. Otherwise the answer of
      the two looks decides. Every quarantine, and nothing else, queues one item. */
  lemma FinishDecides(b: Binding, s: IntakeState, a: Arrival, f: Fingerprint, stamp: Stamp)
    ensures var (after, d) := Finish(b, s, a, f, stamp);
            var known := f.Read? && f.schemaFingerprint in b.schemas;
            var ownPeriod := known && (f.periodKey.Some? ==> f.periodKey.value !in s.periods);
            var own := ownPeriod && (f.duplicateKey.Some? ==> f.duplicateKey.value !in s.duplicates);
            && (f.Refused? ==> d == Quarantine(f.reason, a.path, stamp.eventId))
            && (f.Read? && !known ==> d == Quarantine(SchemaDrift, a.path, stamp.eventId))
            && (known && !ownPeriod ==> d == Quarantine(PeriodOverlap, a.path, stamp.eventId))
            && (ownPeriod && !own ==> d == Quarantine(DuplicateKey, a.path, stamp.eventId))
            && (own ==> d == Answered(ObserveTwice(b, s.detector, FileEvent(a.path, a.size, a.mtimeMs, Some(f.contentFingerprint)),
                                                   a.nowMs).1, a, f, stamp))
            && Queued(b, s.queue, after.queue, Some(d), stamp)
  {
    var problem := FingerprintProblem(b, s, f);
    if problem.Some? {
      QuarantineQueues(b, s, a.path, problem.value, stamp);
    } else {
      var (d, answer) := ObserveTwice(b, s.detector, EventOf(a, f), a.nowMs);
      ConcludeQueues(b, s.(detector := d), a, f, answer, stamp);
    }
  }

  /** Two looks in one word: a whole file is released once its stamp has held for the detector's
      debounce by one of the two times, unless its content is remembered. */
  lemma TwoLooksDecide(b: Binding, d: DetectorState, e: FileEvent, nowMs: int)
    requires e.contentFingerprint.Some?
    ensures var answer := ObserveTwice(b, d, e, nowMs).1;
            var unmoved := e.path in d.pending && SameStamp(e, d.pending[e.path].size, d.pending[e.path].mtimeMs);
            var since := if unmoved then d.pending[e.path].lastChangedAtMs else nowMs;
            var settled := || (unmoved && since + b.detector.debounceMs <= nowMs)
                           || since + b.detector.debounceMs <= nowMs + b.debounceMs;
            && (answer == PartialOrLock <==> IsPartialOrLock(e.path))
            && (answer == Pending <==> !IsPartialOrLock(e.path) && !settled)
            && (answer.DuplicateContent? <==>
                  !IsPartialOrLock(e.path) && settled && e.contentFingerprint.value in d.contentIndex)
            && (answer.Stable? <==>
                  !IsPartialOrLock(e.path) && settled && e.contentFingerprint.value !in d.contentIndex)
  {
  }

  // ---- event keys ------------------------------------------------------------------------

  lemma LastBarAgrees(p: string, m: nat, q: string, n: nat)
    requires p + "|" + Decimal.Render(m) == q + "|" + Decimal.Render(n)
    ensures p == q && m == n
  {
    var x, y := Decimal.Render(m), Decimal.Render(n);
    var s := p + "|" + x;
    assert s == q + "|" + y;
    assert s[|p|] == '|' && s[|q|] == '|';
    assert forall k :: |p| < k < |s| ==> s[k] == x[k - |p| - 1];
    assert forall k :: |q| < k < |s| ==> s[k] == y[k - |q| - 1];
    assert |p| == |q|;
    assert p == s[..|p|] && q == s[..|q|];
    assert x == s[|p| + 1..] && y == s[|q| + 1..];
    Decimal.RenderInjective(m, n);
  }

  /** The key names the path, the size and the time: it is injective for all paths, bars in them
      included. */
  lemma EventKeyIdentifies(a: Arrival, c: Arrival)
    ensures EventKeyOf(a) == EventKeyOf(c) <==> a.path == c.path && a.size == c.size && a.mtimeMs == c.mtimeMs
  {
    if EventKeyOf(a) == EventKeyOf(c) {
      LastBarAgrees(a.path + "|" + Decimal.Render(a.size), a.mtimeMs, c.path + "|" + Decimal.Render(c.size), c.mtimeMs);
      LastBarAgrees(a.path, a.size, c.path, c.size);
    }
  }

  predicate SameEventAdmitted(x: Entry, y: Entry) {
    x.decision.Admitted? && y.decision.Admitted? && x.eventKey == y.eventKey
  }

  /** No admission starts while one of the same event key waits: what a caller that awaits each
      admission of a file before the next guarantees. */
  ghost predicate OneAtATime(b: Binding, steps: seq<Step>) {
    forall k :: 0 <= k < |steps| ==> StartsAlone(Play(b, steps[..k]), steps[k])
  }

  ghost predicate StartsAlone(w: World, step: Step) {
    step.Start? ==> forall t :: t in w.waiting ==> EventKeyOf(w.waiting[t]) != EventKeyOf(step.arrival)
  }

  ghost predicate KeysFresh(w: World) {
    && (forall t :: t in w.waiting ==> EventKeyOf(w.waiting[t]) !in w.intake.events)
    && (forall t, u :: t in w.waiting && u in w.waiting && t != u ==> EventKeyOf(w.waiting[t]) != EventKeyOf(w.waiting[u]))
    && (forall i, j :: 0 <= i < j < |w.log| ==> !SameEventAdmitted(w.log[i], w.log[j]))
  }

  lemma LogStaysFresh(w: World, s: IntakeState, waiting: map<nat, Arrival>, e: Entry)
    requires Sound(w) && KeysFresh(w) && (e.decision.Admitted? ==> e.eventKey !in w.intake.events)
    requires forall t :: t in waiting ==> EventKeyOf(waiting[t]) !in s.events
    requires forall t, u :: t in waiting && u in waiting && t != u ==> EventKeyOf(waiting[t]) != EventKeyOf(waiting[u])
    ensures KeysFresh(World(s, waiting, w.log + [e]))
  {
    var log := w.log + [e];
    forall i, j | 0 <= i < j < |log|
      ensures !SameEventAdmitted(log[i], log[j])
    {
      assert log[i] == w.log[i] && Known(w.intake, w.log[i]);
      if j < |w.log| {
        assert !SameEventAdmitted(w.log[i], w.log[j]);
      }
    }
  }

  lemma ResumeKeepsKeysFresh(b: Binding, w: World, ticket: nat, f: Fingerprint, stamp: Stamp)
    requires Sound(w) && KeysFresh(w)
    ensures KeysFresh(Next(b, w, Resume(ticket, f, stamp)))
  {
    if ticket in w.waiting {
      var a := w.waiting[ticket];
      var s := Finish(b, w.intake, a, f, stamp).0;
      FinishAdmitsOnce(b, w.intake, a, f, stamp);
      var w' := Next(b, w, Resume(ticket, f, stamp));
      assert w' == World(s, w.waiting - {ticket}, w.log + [w'.log[|w.log|]]);
      LogStaysFresh(w, s, w.waiting - {ticket}, w'.log[|w.log|]);
    }
  }

  lemma WaitingStaysFresh(w: World, ticket: nat, a: Arrival)
    requires KeysFresh(w) && EventKeyOf(a) !in w.intake.events && ticket !in w.waiting
    requires forall t :: t in w.waiting ==> EventKeyOf(w.waiting[t]) != EventKeyOf(a)
    ensures KeysFresh(World(w.intake, w.waiting[ticket := a], w.log))
  {
  }

  lemma BeginAdmitsNone(b: Binding, s: IntakeState, a: Arrival, stamp: Stamp)
    ensures var (after, d) := Begin(b, s, a, stamp);
            && after.events == s.events
            && (d.None? ==> after == s && EventKeyOf(a) !in s.events)
            && (d.Some? ==> !d.value.Admitted?)
  {
  }

  lemma StartKeepsKeysFresh(b: Binding, w: World, ticket: nat, a: Arrival, stamp: Stamp)
    requires Sound(w) && KeysFresh(w) && StartsAlone(w, Start(ticket, a, stamp))
    ensures KeysFresh(Next(b, w, Start(ticket, a, stamp)))
  {
    if ticket !in w.waiting {
      var (s, d) := Begin(b, w.intake, a, stamp);
      BeginAdmitsNone(b, w.intake, a, stamp);
      if d.Some? {
        LogStaysFresh(w, s, w.waiting, Entry(d.value, EventKeyOf(a), None, None));
      } else {
        WaitingStaysFresh(w, ticket, a);
      }
    }
  }

  lemma NextKeepsKeysFresh(b: Binding, w: World, step: Step)
    requires Sound(w) && KeysFresh(w) && StartsAlone(w, step)
    ensures KeysFresh(Next(b, w, step))
  {
    match step
    case Resume(ticket, f, stamp) => ResumeKeepsKeysFresh(b, w, ticket, f, stamp);
    case Start(ticket, a, stamp) => StartKeepsKeysFresh(b, w, ticket, a, stamp);
    case Disturb(op) =>
  }

  lemma {:induction false} PlayKeepsKeysFresh(b: Binding, steps: seq<Step>)
    requires OneAtATime(b, steps)
    ensures KeysFresh(Play(b, steps))
  {
    if steps != [] {
      var init := steps[..|steps| - 1];
      forall k | 0 <= k < |init|
        ensures StartsAlone(Play(b, init[..k]), init[k])
      {
        assert init[..k] == steps[..k];
        assert StartsAlone(Play(b, steps[..k]), steps[k]);
      }
      PlayKeepsKeysFresh(b, init);
      PlayIsSound(b, init);
      assert StartsAlone(Play(b, steps[..|init|]), steps[|init|]);
      NextKeepsKeysFresh(b, Play(b, init), steps[|init|]);
    }
  }

  /** When admissions of one event key do not overlap, each path/size/time is admitted once. */
  lemma OneAdmissionPerEvent(b: Binding, steps: seq<Step>, i: nat, j: nat)
    requires OneAtATime(b, steps) && i < j < |Play(b, steps).log|
    ensures !SameEventAdmitted(Play(b, steps).log[i], Play(b, steps).log[j])
  {
    PlayKeepsKeysFresh(b, steps);
  }

  /** The read admits the arrival as far as the ledgers know: it was read, it fails no check, the
      file is whole and its content new. */
  predicate Admissible(b: Binding, s: IntakeState, a: Arrival, f: Fingerprint) {
    && f.Read? && FingerprintProblem(b, s, f).None?
    && !IsPartialOrLock(a.path)
    && f.contentFingerprint !in s.detector.contentIndex
  }

  /** Two reads that use up nothing of each other's. */
  predicate Apart(f: Fingerprint, g: Fingerprint)
    requires f.Read? && g.Read?
  {
    && f.contentFingerprint != g.contentFingerprint
    && (f.periodKey.Some? ==> f.periodKey != g.periodKey)
    && (f.duplicateKey.Some? ==> f.duplicateKey != g.duplicateKey)
  }

  lemma FinishAdmitsIff(b: Binding, s: IntakeState, a: Arrival, f: Fingerprint, stamp: Stamp)
    requires s.detector.pending == map[] && b.detector.debounceMs == b.debounceMs
    ensures var (s', d) := Finish(b, s, a, f, stamp);
            (d.Admitted? <==> Admissible(b, s, a, f)) && s'.detector.pending == map[]
  {
    FinishSettles(b, s, a, f, stamp);
    if FingerprintProblem(b, s, f).None? {
      TwoLooksSettle(b, s.detector, EventOf(a, f), a.nowMs);
    }
  }

  /** Ledgers that grew by what `f` used admit `g` if and only if they did before and the two
      reads are apart. */
  lemma GrownLedgersAdmit(b: Binding, s: IntakeState, after: IntakeState, f: Fingerprint, c: Arrival, g: Fingerprint)
    requires f.Read?
    requires after.detector.contentIndex.Keys == s.detector.contentIndex.Keys + {f.contentFingerprint}
    requires after.periods == s.periods + Elements(f.periodKey)
    requires after.duplicates == s.duplicates + Elements(f.duplicateKey)
    ensures Admissible(b, after, c, g) <==> Admissible(b, s, c, g) && Apart(f, g)
  {
    if g.Read? {
      assert g.contentFingerprint in after.detector.contentIndex
             <==> g.contentFingerprint in s.detector.contentIndex || g.contentFingerprint == f.contentFingerprint;
    }
  }

  lemma AdmissionGrows(b: Binding, s: IntakeState, a: Arrival, f: Fingerprint, stamp: Stamp, after: IntakeState)
    requires Finish(b, s, a, f, stamp).0 == after && Finish(b, s, a, f, stamp).1.Admitted?
    ensures f.Read? && after.detector.contentIndex.Keys == s.detector.contentIndex.Keys + {f.contentFingerprint}
    ensures after.periods == s.periods + Elements(f.periodKey)
    ensures after.duplicates == s.duplicates + Elements(f.duplicateKey)
  {
    FinishAdmitsOnce(b, s, a, f, stamp);
  }

  /** The premise is needed: the key is only checked before the await. When two admissions of the
      same event wait together, both are admitted if and only if each read is admissible as the
      ledgers stand and the two differ in content and in any period and duplicate key. */
  lemma OverlapAdmitsTwiceIff(b: Binding, w: World, t: nat, u: nat, f: Fingerprint, g: Fingerprint, one: Stamp, two: Stamp)
    requires w.intake.detector.pending == map[] && b.detector.debounceMs == b.debounceMs
    requires t in w.waiting && u in w.waiting && t != u && EventKeyOf(w.waiting[t]) == EventKeyOf(w.waiting[u])
    ensures var twice := Next(b, Next(b, w, Resume(t, f, one)), Resume(u, g, two));
            && |twice.log| == |w.log| + 2
            && (SameEventAdmitted(twice.log[|w.log|], twice.log[|w.log| + 1])
                <==> Admissible(b, w.intake, w.waiting[t], f) && Admissible(b, w.intake, w.waiting[u], g) && Apart(f, g))
  {
    var s := Finish(b, w.intake, w.waiting[t], f, one).0;
    FinishAdmitsIff(b, w.intake, w.waiting[t], f, one);
    FinishAdmitsIff(b, s, w.waiting[u], g, two);
    if Finish(b, w.intake, w.waiting[t], f, one).1.Admitted? {
      AdmissionGrows(b, w.intake, w.waiting[t], f, one, s);
      GrownLedgersAdmit(b, w.intake, s, f, w.waiting[u], g);
    }
  }

  function Continue(b: Binding, w: World, steps: seq<Step>): World {
    if steps == [] then w else Next(b, Continue(b, w, steps[..|steps| - 1]), steps[|steps| - 1])
  }

  /** What was used stays used, and decisions stay given. */
  ghost predicate Grown(w: World, after: World) {
    && w.intake.detector.contentIndex.Keys <= after.intake.detector.contentIndex.Keys
    && w.intake.periods <= after.intake.periods
    && w.intake.duplicates <= after.intake.duplicates
    && w.log <= after.log
  }

  lemma NextGrows(b: Binding, w: World, step: Step)
    ensures Grown(w, Next(b, w, step))
  {
    if step.Resume? && step.ticket in w.waiting {
      FinishAdmitsOnce(b, w.intake, w.waiting[step.ticket], step.fingerprint, step.stamp);
    }
  }

  lemma {:induction false} ContinueGrows(b: Binding, w: World, steps: seq<Step>)
    ensures Grown(w, Continue(b, w, steps))
  {
    if steps != [] {
      ContinueGrows(b, w, steps[..|steps| - 1]);
      NextGrows(b, Continue(b, w, steps[..|steps| - 1]), steps[|steps| - 1]);
    }
  }

  /** What the grown ledgers admit is apart from what an admission in between used. */
  lemma GrownStaysApart(b: Binding, s: IntakeState, later: IntakeState, f: Fingerprint, c: Arrival, g: Fingerprint)
    requires f.Read? && f.contentFingerprint in s.detector.contentIndex
    requires Elements(f.periodKey) <= s.periods && Elements(f.duplicateKey) <= s.duplicates
    requires s.detector.contentIndex.Keys <= later.detector.contentIndex.Keys
    requires s.periods <= later.periods && s.duplicates <= later.duplicates
    requires Admissible(b, later, c, g)
    ensures Apart(f, g)
  {
    assert f.contentFingerprint in later.detector.contentIndex;
    assert f.periodKey.Some? ==> f.periodKey.value in Elements(f.periodKey);
    assert f.duplicateKey.Some? ==> f.duplicateKey.value in Elements(f.duplicateKey);
  }

  lemma ResumeAdmitsIff(b: Binding, w: World, t: nat, f: Fingerprint, stamp: Stamp)
    requires w.intake.detector.pending == map[] && b.detector.debounceMs == b.debounceMs && t in w.waiting
    ensures var after := Next(b, w, Resume(t, f, stamp));
            && |after.log| == |w.log| + 1
            && after.log[|w.log|].eventKey == EventKeyOf(w.waiting[t])
            && (after.log[|w.log|].decision.Admitted? <==> Admissible(b, w.intake, w.waiting[t], f))
  {
    FinishAdmitsIff(b, w.intake, w.waiting[t], f, stamp);
  }

  /** The same with anything in between: other admissions begin, finish, are refused. Two admissions
      of one event are both admitted if and only if each read is admissible to the ledgers it meets,
      and then the two reads are apart. */
  lemma OverlapBetweenIff(b: Binding, w: World, t: nat, u: nat, f: Fingerprint, g: Fingerprint, one: Stamp, two: Stamp,
                          between: seq<Step>)
    requires b.detector.debounceMs == b.debounceMs && w.intake.detector.pending == map[] && t in w.waiting
    requires var met := Continue(b, Next(b, w, Resume(t, f, one)), between);
             met.intake.detector.pending == map[] && u in met.waiting
             && EventKeyOf(met.waiting[u]) == EventKeyOf(w.waiting[t])
    ensures var met := Continue(b, Next(b, w, Resume(t, f, one)), between);
            var last := Next(b, met, Resume(u, g, two));
            && |w.log| < |met.log| < |last.log|
            && (SameEventAdmitted(last.log[|w.log|], last.log[|met.log|])
                <==> Admissible(b, w.intake, w.waiting[t], f) && Admissible(b, met.intake, met.waiting[u], g))
            && (SameEventAdmitted(last.log[|w.log|], last.log[|met.log|]) ==> f.Read? && g.Read? && Apart(f, g))
  {
    var first := Next(b, w, Resume(t, f, one));
    var met := Continue(b, first, between);
    ResumeAdmitsIff(b, w, t, f, one);
    ContinueGrows(b, first, between);
    ResumeAdmitsIff(b, met, u, g, two);
    NextGrows(b, met, Resume(u, g, two));
    if Admissible(b, w.intake, w.waiting[t], f) && Admissible(b, met.intake, met.waiting[u], g) {
      FinishAdmitsOnce(b, w.intake, w.waiting[t], f, one);
      FinishAdmitsIff(b, w.intake, w.waiting[t], f, one);
      GrownStaysApart(b, first.intake, met.intake, f, met.waiting[u], g);
    }
  }

  /** That situation is two watcher events in a row: an arrival that passes the checks before the
      await passes them again while it waits. */
  lemma RepeatedArrivalWaitsTwice(b: Binding, w: World, a: Arrival, t: nat, u: nat, stamp: Stamp)
    requires t !in w.waiting && u !in w.waiting && t != u
    requires Begin(b, w.intake, a, stamp).1.None?
    ensures Next(b, Next(b, w, Start(t, a, stamp)), Start(u, a, stamp)) == w.(waiting := w.waiting[t := a][u := a])
  {
  }

  lemma PlaySnoc(b: Binding, steps: seq<Step>, step: Step)
    ensures Play(b, steps + [step]) == Next(b, Play(b, steps), step)
  {
    assert (steps + [step])[..|steps|] == steps;
  }

  /** A burst of two watcher events, played from the start, admits the event twice if and only if
      both reads are admissible to the empty ledgers and apart. */
  lemma BurstAdmitsTwiceIff(b: Binding, a: Arrival, f: Fingerprint, g: Fingerprint, one: Stamp, two: Stamp)
    requires b.detector.debounceMs == b.debounceMs && Begin(b, EMPTY.intake, a, one).1.None?
    ensures var log := Play(b, [Start(0, a, one), Start(1, a, one), Resume(0, f, one), Resume(1, g, two)]).log;
            && |log| == 2
            && (SameEventAdmitted(log[0], log[1])
                <==> Admissible(b, EMPTY.intake, a, f) && Admissible(b, EMPTY.intake, a, g) && Apart(f, g))
  {
    var s1 := [Start(0, a, one)];
    var s2 := s1 + [Start(1, a, one)];
    var s3 := s2 + [Resume(0, f, one)];
    var s4 := s3 + [Resume(1, g, two)];
    PlaySnoc(b, [], Start(0, a, one));
    assert [] + [Start(0, a, one)] == s1;
    PlaySnoc(b, s1, Start(1, a, one));
    RepeatedArrivalWaitsTwice(b, EMPTY, a, 0, 1, one);
    PlaySnoc(b, s2, Resume(0, f, one));
    PlaySnoc(b, s3, Resume(1, g, two));
    assert s4 == [Start(0, a, one), Start(1, a, one), Resume(0, f, one), Resume(1, g, two)];
    OverlapAdmitsTwiceIff(b, Play(b, s2), 0, 1, f, g, one, two);
  }

  /** With an equal debounce the second look always releases the file again. */
  lemma TwoLooksSettle(b: Binding, d: DetectorState, e: FileEvent, nowMs: int)
    requires d.pending == map[] && b.detector.debounceMs == b.debounceMs && e.contentFingerprint.Some?
    ensures var (d', answer) := ObserveTwice(b, d, e, nowMs);
            && d' == d && !answer.Pending?
            && (answer.Stable? <==> !IsPartialOrLock(e.path) && e.contentFingerprint.value !in d.contentIndex)
  {
    var first := Observe(b.detector, d, e, nowMs);
    if first.1.Pending? {
      var second := Observe(b.detector, first.0, e, nowMs + b.debounceMs);
      assert second.0.pending == map[];
    }
  }

  // ---- nothing stays pending -------------------------------------------------------------

  ghost predicate Settled(w: World) {
    && w.intake.detector.pending == map[]
    && (forall i :: 0 <= i < |w.log| ==> !w.log[i].decision.StillPending?)
  }

  lemma FinishSettles(b: Binding, s: IntakeState, a: Arrival, f: Fingerprint, stamp: Stamp)
    requires s.detector.pending == map[] && b.detector.debounceMs == b.debounceMs
    ensures Finish(b, s, a, f, stamp).0.detector.pending == map[] && !Finish(b, s, a, f, stamp).1.StillPending?
  {
    if f.Read? {
      TwoLooksSettle(b, s.detector, EventOf(a, f), a.nowMs);
    }
  }

  lemma NextStaysSettled(b: Binding, w: World, step: Step)
    requires Settled(w) && b.detector.debounceMs == b.debounceMs
    requires step.Start? || step.Resume?
    ensures Settled(Next(b, w, step))
  {
    if step.Resume? && step.ticket in w.waiting {
      FinishSettles(b, w.intake, w.waiting[step.ticket], step.fingerprint, step.stamp);
    }
  }

  /** When intake is the detector's only user and both debounce intervals are equal, the pending
      map is empty between sections and no admission is ever answered PENDING, however the
      admissions overlap and whatever the clock says. */
  lemma {:induction false} IntakeNeverAnswersPending(b: Binding, steps: seq<Step>)
    requires b.detector.debounceMs == b.debounceMs
    requires forall k :: 0 <= k < |steps| ==> steps[k].Start? || steps[k].Resume?
    ensures Settled(Play(b, steps))
  {
    if steps != [] {
      IntakeNeverAnswersPending(b, steps[..|steps| - 1]);
      NextStaysSettled(b, Play(b, steps[..|steps| - 1]), steps[|steps| - 1]);
    }
  }
}
