/** Accept-Language negotiation (RFC 9110 sections 12.5.4 and 12.4.2) over the supported locales. */
module LocaleNegotiation {
  import opened Common
  import Decimal
  import StableSort

  datatype Locale = Vietnamese | English

  const SUPPORTED: seq<Locale> := [Vietnamese, English]
  const DEFAULT: Locale := Vietnamese

  datatype Target = Wildcard | Explicit(locale: Locale)

  /** A parsed range; quality is in thousandths. */
  datatype Candidate = Candidate(canonical: string, target: Target, quality: nat, order: nat, specificity: nat)

  /** The `Intl` and string intrinsics: trimming, canonicalisation, and a tag's language. */
  datatype Intl = Intl(trim: string -> string, canonicalize: string -> Option<string>, language: string -> string)

  // ---- parsing ---------------------------------------------------------------------------

  function Split(s: string, separator: char): (parts: seq<string>)
    ensures |parts| >= 1
  {
    if s == "" then [""]
    else
      var rest := Split(s[1..], separator);
      if s[0] == separator then [""] + rest else [[s[0]] + rest[0]] + rest[1..]
  }

  predicate Digits(s: string) {
    forall i :: 0 <= i < |s| ==> Decimal.IsDigit(s[i])
  }

  /** `0[.d{0,3}]` or `1[.0{0,3}]`, in thousandths. */
  function QValue(v: string): Option<nat> {
    if v == "0" then Some(0)
    else if v == "1" then Some(1000)
    else if 2 <= |v| <= 5 && v[0] == '0' && v[1] == '.' && Digits(v[2..]) then
      var d := v[2..];
      var padded := if |d| == 0 then d + "000" else if |d| == 1 then d + "00" else if |d| == 2 then d + "0" else d;
      Some(Decimal.Parse(padded))
    else if 2 <= |v| <= 5 && v[0] == '1' && v[1] == '.' && (forall i :: 2 <= i < |v| ==> v[i] == '0') then Some(1000)
    else None
  }

  function QualityOf(section: string): Option<nat> {
    if |section| >= 3 && section[0] in "qQ" && section[1] == '=' then QValue(section[2..]) else None
  }

  function SupportedLanguage(language: string): Option<Locale> {
    if language == "vi" then Some(Vietnamese) else if language == "en" then Some(English) else None
  }

  datatype CanonicalRange = CanonicalRange(canonical: string, locale: Locale, specificity: nat)

  function CanonicalSupportedRange(intl: Intl, range: string): Option<CanonicalRange> {
    var tag := intl.trim(range);
    if tag == "" || |tag| > 255 then None
    else
      match intl.canonicalize(tag)
      case None => None
      case Some(canonical) =>
        match SupportedLanguage(intl.language(canonical))
        case None => None
        case Some(locale) => Some(CanonicalRange(canonical, locale, |Split(canonical, '-')|))
  }

  function ParseCandidate(intl: Intl, part: string, order: nat): Option<Candidate> {
    var raw := Split(part, ';');
    var range := intl.trim(raw[0]);
    if |raw| > 2 || range == "" then None
    else
      var quality := if |raw| == 2 then QualityOf(intl.trim(raw[1])) else Some(1000);
      if quality.None? then None
      else if range == "*" then Some(Candidate("*", Wildcard, quality.value, order, 0))
      else
        match CanonicalSupportedRange(intl, range)
        case None => None
        case Some(r) => Some(Candidate(r.canonical, Explicit(r.locale), quality.value, order, r.specificity))
  }

  /** The candidates of the first parts of a header, numbered by their place. */
  function ParseAll(intl: Intl, parts: seq<string>): seq<Candidate> {
    if parts == [] then []
    else
      var init := ParseAll(intl, parts[..|parts| - 1]);
      match ParseCandidate(intl, parts[|parts| - 1], |parts| - 1)
      case None => init
      case Some(c) => init + [c]
  }

  function Candidates(intl: Intl, header: string): seq<Candidate> {
    var parts := Split(header, ',');
    ParseAll(intl, if |parts| > 64 then parts[..64] else parts)
  }

  // ---- duplicate ranges ------------------------------------------------------------------

  function RangeKey(c: Candidate): string {
    if c.target.Wildcard? then "*" else c.canonical
  }

  predicate Replaces(c: Candidate, current: Candidate) {
    c.quality > current.quality || (c.quality == current.quality && c.order < current.order)
  }

  /** The best candidate of each range so far, ranges in order of first appearance. */
  function Keep(best: seq<Candidate>, c: Candidate): seq<Candidate> {
    if best == [] then [c]
    else if RangeKey(best[0]) == RangeKey(c) then (if Replaces(c, best[0]) then [c] + best[1..] else best)
    else [best[0]] + Keep(best[1..], c)
  }

  function Consolidated(candidates: seq<Candidate>): seq<Candidate> {
    if candidates == [] then []
    else Keep(Consolidated(candidates[..|candidates| - 1]), candidates[|candidates| - 1])
  }

  function Values(keys: seq<string>, best: map<string, Candidate>): seq<Candidate>
    requires forall k :: k in keys ==> k in best
  {
    seq(|keys|, i requires 0 <= i < |keys| => best[keys[i]])
  }

  ghost predicate KeysMatch(keys: seq<string>, best: map<string, Candidate>) {
    && (forall k :: k in keys <==> k in best)
    && (forall k :: k in best ==> RangeKey(best[k]) == k)
    && (forall i, j :: 0 <= i < j < |keys| ==> keys[i] != keys[j])
  }

  lemma ValuesOfCons(key: string, rest: seq<string>, best: map<string, Candidate>)
    requires key in best && forall k :: k in rest ==> k in best
    ensures Values([key] + rest, best) == [best[key]] + Values(rest, best)
  {
    var keys := [key] + rest;
    assert forall i :: 0 <= i < |rest| ==> keys[i + 1] == rest[i];
  }

  lemma ValuesElsewhere(keys: seq<string>, best: map<string, Candidate>, key: string, c: Candidate)
    requires key !in keys && forall k :: k in keys ==> k in best
    ensures Values(keys, best[key := c]) == Values(keys, best)
  {
    assert forall i :: 0 <= i < |keys| ==> keys[i] in keys;
  }

  /** Setting a key of the map is keeping a candidate in the list. */
  lemma {:induction false} SetKeeps(keys: seq<string>, best: map<string, Candidate>, c: Candidate)
    requires forall k :: k in keys ==> k in best && RangeKey(best[k]) == k
    requires forall i, j :: 0 <= i < j < |keys| ==> keys[i] != keys[j]
    ensures RangeKey(c) !in keys ==> Values(keys + [RangeKey(c)], best[RangeKey(c) := c]) == Keep(Values(keys, best), c)
    ensures RangeKey(c) in keys ==>
              Keep(Values(keys, best), c)
              == Values(keys, if Replaces(c, best[RangeKey(c)]) then best[RangeKey(c) := c] else best)
  {
    var key := RangeKey(c);
    var after := best[key := c];
    if keys == [] {
      assert Values([key], after) == [c];
    } else {
      var head, rest := keys[0], keys[1..];
      assert keys == [head] + rest;
      SetKeeps(rest, best, c);
      ValuesOfCons(head, rest, best);
      if head == key {
        assert forall i :: 0 <= i < |rest| ==> rest[i] == keys[i + 1];
        assert key !in rest;
        ValuesElsewhere(rest, best, key, c);
        ValuesOfCons(head, rest, after);
      } else if key in rest {
        ValuesOfCons(head, rest, after);
      } else {
        assert keys + [key] == [head] + (rest + [key]);
        ValuesOfCons(head, rest + [key], after);
      }
    }
  }

  /** The loop over a `Map`: a key keeps its place, its value is replaced by a better one. */
  method ConsolidateDuplicateRanges(candidates: seq<Candidate>) returns (r: seq<Candidate>)
    ensures r == Consolidated(candidates)
  {
    var keys: seq<string>, bestByRange: map<string, Candidate> := [], map[];
    for i := 0 to |candidates|
      invariant KeysMatch(keys, bestByRange)
      invariant Values(keys, bestByRange) == Consolidated(candidates[..i])
    {
      var candidate := candidates[i];
      var key := RangeKey(candidate);
      assert candidates[..i + 1][..i] == candidates[..i];
      SetKeeps(keys, bestByRange, candidate);
      if key !in bestByRange {
        keys := keys + [key];
        bestByRange := bestByRange[key := candidate];
      } else if Replaces(candidate, bestByRange[key]) {
        bestByRange := bestByRange[key := candidate];
      }
    }
    assert candidates[..|candidates|] == candidates;
    r := Values(keys, bestByRange);
  }

  // ---- negotiation -----------------------------------------------------------------------

  /** Sorts no later: more specific, then higher quality, then earlier. */
  predicate MoreSpecific(a: Candidate, b: Candidate) {
    || a.specificity > b.specificity
    || (a.specificity == b.specificity && (a.quality > b.quality || (a.quality == b.quality && a.order <= b.order)))
  }

  predicate HigherQuality(a: Candidate, b: Candidate) {
    a.quality > b.quality || (a.quality == b.quality && a.order <= b.order)
  }

  function ForTarget(candidates: seq<Candidate>, target: Target): seq<Candidate> {
    if candidates == [] then []
    else
      var init, last := ForTarget(candidates[..|candidates| - 1], target), candidates[|candidates| - 1];
      if last.target == target then init + [last] else init
  }

  function First<T>(s: seq<T>): Option<T> {
    if s == [] then None else Some(s[0])
  }

  function MostSpecificExplicit(candidates: seq<Candidate>, locale: Locale): Option<Candidate> {
    First(StableSort.Sort(MoreSpecific, ForTarget(candidates, Explicit(locale))))
  }

  function BestWildcard(candidates: seq<Candidate>): Option<Candidate> {
    First(StableSort.Sort(HigherQuality, ForTarget(candidates, Wildcard)))
  }

  /** The candidate that decides a locale: its own most specific range, else the wildcard. */
  function Deciding(candidates: seq<Candidate>, locale: Locale): Option<Candidate> {
    var explicit := MostSpecificExplicit(candidates, locale);
    if explicit.Some? then explicit else BestWildcard(candidates)
  }

  datatype Score = Score(locale: Locale, localeOrder: nat, quality: nat, order: int)

  function ScoreOf(candidates: seq<Candidate>, locale: Locale, localeOrder: nat): Score {
    Scored(Deciding(candidates, locale), locale, localeOrder)
  }

  function Scored(deciding: Option<Candidate>, locale: Locale, localeOrder: nat): Score {
    match deciding
    case None => Score(locale, localeOrder, 0, MAX_SAFE_INTEGER)
    case Some(c) => Score(locale, localeOrder, c.quality, c.order)
  }

  predicate ScoresFirst(a: Score, b: Score) {
    || a.quality > b.quality
    || (a.quality == b.quality && (a.order < b.order || (a.order == b.order && a.localeOrder <= b.localeOrder)))
  }

  function PositiveScores(candidates: seq<Candidate>, n: nat): seq<Score>
    requires n <= |SUPPORTED|
  {
    if n == 0 then []
    else
      var init, score := PositiveScores(candidates, n - 1), ScoreOf(candidates, SUPPORTED[n - 1], n - 1);
      if score.quality > 0 then init + [score] else init
  }

  function Negotiate(candidates: seq<Candidate>): Locale {
    TopLocale(PositiveScores(candidates, |SUPPORTED|))
  }

  function TopLocale(scores: seq<Score>): Locale {
    match First(StableSort.Sort(ScoresFirst, scores))
    case None => DEFAULT
    case Some(score) => score.locale
  }

  /** The locale of a header; the default when there is none, or an empty or overlong one. */
  function Negotiated(intl: Intl, header: Option<string>): Locale {
    if header.None? || |header.value| == 0 || |header.value| > 8192 then DEFAULT
    else Negotiate(Consolidated(Candidates(intl, header.value)))
  }

  method NegotiateHeader(intl: Intl, header: Option<string>) returns (r: Locale)
    ensures r == Negotiated(intl, header)
  {
    if header.None? || |header.value| == 0 || |header.value| > 8192 {
      return DEFAULT;
    }
    var candidates := ConsolidateDuplicateRanges(Candidates(intl, header.value));
    var scores: seq<Score> := [];
    for localeOrder := 0 to |SUPPORTED|
      invariant scores == PositiveScores(candidates, localeOrder)
    {
      var score := ScoreOf(candidates, SUPPORTED[localeOrder], localeOrder);
      if score.quality > 0 {
        scores := scores + [score];
      }
    }
    scores := StableSort.Sort(ScoresFirst, scores);
    return if |scores| > 0 then scores[0].locale else DEFAULT;
  }

  /** What a caller passes: a header, nothing, something unreadable, or its two optional fields. */
  datatype Request =
    | Header(header: string) | Nothing | Unreadable
    | Preferences(userLocale: Option<string>, acceptLanguage: Option<string>)

  function NegotiateLocale(intl: Intl, request: Request): Locale {
    match request
    case Header(header) => Negotiated(intl, Some(header))
    case Nothing => DEFAULT
    case Unreadable => DEFAULT
    case Preferences(userLocale, acceptLanguage) =>
      var preferred := if userLocale.Some? then CanonicalSupportedRange(intl, userLocale.value) else None;
      if preferred.Some? then preferred.value.locale else Negotiated(intl, acceptLanguage)
  }

  // ---- consolidation is invisible --------------------------------------------------------

  ghost predicate DistinctOrders(candidates: seq<Candidate>) {
    forall x, y :: x in candidates && y in candidates && x.order == y.order ==> x == y
  }

  /** A range's canonical form decides what it is about; no explicit range is written `*`. */
  ghost predicate CanonicalDecides(candidates: seq<Candidate>) {
    forall x, y :: x in candidates && y in candidates && RangeKey(x) == RangeKey(y)
      ==> x.target == y.target && x.specificity == y.specificity
  }

  ghost predicate AsGood(y: Candidate, x: Candidate) {
    RangeKey(y) == RangeKey(x) && HigherQuality(y, x)
  }

  /** A range at least as good stands in for `x`. */
  ghost predicate Covered(best: seq<Candidate>, x: Candidate) {
    exists y :: y in best && AsGood(y, x)
  }

  lemma {:induction false} KeepFacts(best: seq<Candidate>, c: Candidate)
    ensures forall x :: x in Keep(best, c) ==> x == c || x in best
    ensures forall x :: x in best || x == c ==> Covered(Keep(best, c), x)
  {
    if best == [] {
      assert c in Keep(best, c) && AsGood(c, c);
    } else {
      var head, tail, kept := best[0], best[1..], Keep(best, c);
      assert best == [head] + tail;
      assert kept == [kept[0]] + kept[1..];
      assert kept[0] in kept && forall x :: x in kept[1..] ==> x in kept;
      if RangeKey(head) == RangeKey(c) {
        assert AsGood(kept[0], head) && AsGood(kept[0], c);
        assert forall x :: x in tail ==> AsGood(x, x);
      } else {
        KeepFacts(tail, c);
        assert AsGood(head, head);
        forall x | x in tail || x == c
          ensures Covered(kept, x)
        {
          assert Covered(Keep(tail, c), x);
          var y :| y in Keep(tail, c) && AsGood(y, x);
        }
      }
    }
  }

  lemma CoveredStays(best: seq<Candidate>, c: Candidate, x: Candidate)
    requires Covered(best, x)
    ensures Covered(Keep(best, c), x)
  {
    var y :| y in best && AsGood(y, x);
    KeepFacts(best, c);
    assert Covered(Keep(best, c), y);
    var z :| z in Keep(best, c) && AsGood(z, y);
    assert AsGood(z, x);
  }

  /** Consolidation drops candidates only in favour of one at least as good of the same range. */
  lemma {:induction false} ConsolidatedKeepsBest(candidates: seq<Candidate>)
    ensures forall x :: x in Consolidated(candidates) ==> x in candidates
    ensures forall x :: x in candidates ==> Covered(Consolidated(candidates), x)
  {
    if candidates != [] {
      var init, last := candidates[..|candidates| - 1], candidates[|candidates| - 1];
      assert candidates == init + [last];
      ConsolidatedKeepsBest(init);
      KeepFacts(Consolidated(init), last);
      forall x | x in candidates
        ensures Covered(Consolidated(candidates), x)
      {
        if x in init {
          CoveredStays(Consolidated(init), last, x);
        }
      }
    }
  }

  lemma {:induction false} ForTargetMembers(candidates: seq<Candidate>, target: Target)
    ensures forall x :: x in ForTarget(candidates, target) <==> x in candidates && x.target == target
  {
    if candidates != [] {
      ForTargetMembers(candidates[..|candidates| - 1], target);
      assert candidates == candidates[..|candidates| - 1] + [candidates[|candidates| - 1]];
    }
  }

  lemma OrdersAreTotal()
    ensures StableSort.TotalPreorder(MoreSpecific)
    ensures StableSort.TotalPreorder(HigherQuality)
    ensures StableSort.TotalPreorder(ScoresFirst)
  {
  }

  /** The first of a sorted list is a least element. */
  lemma FirstIsLeast<T(!new)>(le: (T, T) -> bool, s: seq<T>)
    requires StableSort.TotalPreorder(le)
    ensures match First(StableSort.Sort(le, s))
            case None => s == []
            case Some(x) => x in s && forall y :: y in s ==> le(x, y)
  {
    var r := StableSort.Sort(le, s);
    StableSort.SortSorts(le, s);
    StableSort.SortPermutes(le, s);
    if s != [] {
      assert r[0] in multiset(r);
      forall y | y in s
        ensures le(r[0], y)
      {
        assert y in multiset(r);
        var i :| 0 <= i < |r| && r[i] == y;
        assert le(y, y);
      }
    }
  }

  /** `c` is the range that must decide `locale`, said without sorting. */
  ghost predicate Decides(candidates: seq<Candidate>, locale: Locale, c: Candidate) {
    && c in candidates
    && if c.target == Explicit(locale)
       then forall x :: x in candidates && x.target == c.target ==> MoreSpecific(c, x)
       else
         && c.target == Wildcard
         && (forall x :: x in candidates ==> x.target != Explicit(locale))
         && (forall x :: x in candidates && x.target == Wildcard ==> HigherQuality(c, x))
  }

  /** The sorts find it: an explicit range of the locale overrides the wildcard, the most specific
      one decides, then quality, then order; nothing decides only if nothing applies. */
  lemma DecidingDecides(candidates: seq<Candidate>, locale: Locale)
    ensures match Deciding(candidates, locale)
            case Some(c) => Decides(candidates, locale, c)
            case None => forall x :: x in candidates ==> x.target != Explicit(locale) && x.target != Wildcard
  {
    OrdersAreTotal();
    FirstIsLeast(MoreSpecific, ForTarget(candidates, Explicit(locale)));
    FirstIsLeast(HigherQuality, ForTarget(candidates, Wildcard));
    ForTargetMembers(candidates, Explicit(locale));
    ForTargetMembers(candidates, Wildcard);
    assert First(StableSort.Sort(MoreSpecific, ForTarget(candidates, Explicit(locale)))).None?
           ==> forall x :: x in candidates && x.target == Explicit(locale) ==> x in ForTarget(candidates, Explicit(locale));
    assert First(StableSort.Sort(HigherQuality, ForTarget(candidates, Wildcard))).None?
           ==> forall x :: x in candidates && x.target == Wildcard ==> x in ForTarget(candidates, Wildcard);
  }

  lemma DecidesIsUnique(candidates: seq<Candidate>, locale: Locale, c: Candidate, d: Candidate)
    requires DistinctOrders(candidates) && Decides(candidates, locale, c) && Decides(candidates, locale, d)
    ensures c == d
  {
    assert c.order == d.order;
  }

  lemma NothingElseIsAsGood(candidates: seq<Candidate>, locale: Locale, c: Candidate, y: Candidate)
    requires DistinctOrders(candidates) && Decides(candidates, locale, c)
    requires y in candidates && HigherQuality(y, c)
    requires y.target == c.target && y.specificity == c.specificity
    ensures y == c
  {
    assert y.order == c.order;
  }

  /** What decides is the best of its own range, so it is what consolidation keeps. */
  lemma DecidingIsKept(candidates: seq<Candidate>, locale: Locale, c: Candidate)
    requires DistinctOrders(candidates) && CanonicalDecides(candidates) && Decides(candidates, locale, c)
    ensures c in Consolidated(candidates)
  {
    var kept := Consolidated(candidates);
    assert c in candidates;
    assert Covered(kept, c) && forall x :: x in kept ==> x in candidates by { ConsolidatedKeepsBest(candidates); }
    var y :| y in kept && AsGood(y, c);
    NothingElseIsAsGood(candidates, locale, c, y);
  }

  lemma DecidesInSubset(candidates: seq<Candidate>, kept: seq<Candidate>, locale: Locale, c: Candidate)
    requires Decides(candidates, locale, c) && c in kept
    requires forall x :: x in kept ==> x in candidates
    ensures Decides(kept, locale, c)
  {
  }

  lemma ConsolidationKeepsDeciding(candidates: seq<Candidate>, locale: Locale)
    requires DistinctOrders(candidates) && CanonicalDecides(candidates)
    ensures Deciding(Consolidated(candidates), locale) == Deciding(candidates, locale)
  {
    var kept := Consolidated(candidates);
    var before, after := Deciding(candidates, locale), Deciding(kept, locale);
    assert forall x :: x in kept ==> x in candidates by { ConsolidatedKeepsBest(candidates); }
    if before.Some? {
      var c := before.value;
      assert Decides(candidates, locale, c) by { DecidingDecides(candidates, locale); }
      DecidingIsKept(candidates, locale, c);
      DecidesInSubset(candidates, kept, locale, c);
      DecidingDecides(kept, locale);
      assert after.Some? by { assert c in kept; }
      DecidesIsUnique(kept, locale, c, after.value);
    } else {
      DecidingDecides(candidates, locale);
      DecidingDecides(kept, locale);
    }
  }

  /** Consolidating duplicate ranges never changes the negotiated locale. */
  lemma ConsolidationIsInvisible(candidates: seq<Candidate>)
    requires DistinctOrders(candidates) && CanonicalDecides(candidates)
    ensures Negotiate(Consolidated(candidates)) == Negotiate(candidates)
  {
    ConsolidationKeepsDeciding(candidates, Vietnamese);
    ConsolidationKeepsDeciding(candidates, English);
    SameScores(Consolidated(candidates), candidates, |SUPPORTED|);
  }

  lemma {:induction false} SameScores(a: seq<Candidate>, b: seq<Candidate>, n: nat)
    requires n <= |SUPPORTED|
    requires Deciding(a, Vietnamese) == Deciding(b, Vietnamese) && Deciding(a, English) == Deciding(b, English)
    ensures PositiveScores(a, n) == PositiveScores(b, n)
  {
    if n > 0 {
      SameScores(a, b, n - 1);
      assert SUPPORTED[n - 1] == Vietnamese || SUPPORTED[n - 1] == English;
    }
  }

  lemma {:induction false} ParsedOrders(intl: Intl, parts: seq<string>)
    ensures forall x :: x in ParseAll(intl, parts) ==> x.order < |parts|
    ensures DistinctOrders(ParseAll(intl, parts))
  {
    if parts != [] {
      ParsedOrders(intl, parts[..|parts| - 1]);
    }
  }

  lemma {:induction false} ParsedRanges(intl: Intl, parts: seq<string>)
    requires forall tag :: intl.canonicalize(tag) != Some("*")
    ensures forall x :: x in ParseAll(intl, parts) ==>
              if x.target.Wildcard? then x.specificity == 0
              else
                && x.canonical != "*" && SupportedLanguage(intl.language(x.canonical)) == Some(x.target.locale)
                && x.specificity == |Split(x.canonical, '-')|
  {
    if parts != [] {
      ParsedRanges(intl, parts[..|parts| - 1]);
    }
  }

  /** For every header: negotiating with and without consolidation gives the same locale, as no
      canonical tag is `*`. */
  lemma ConsolidationIsInvisibleInHeaders(intl: Intl, header: string)
    requires forall tag :: intl.canonicalize(tag) != Some("*")
    ensures Negotiate(Consolidated(Candidates(intl, header))) == Negotiate(Candidates(intl, header))
  {
    var parts := Split(header, ',');
    var used := if |parts| > 64 then parts[..64] else parts;
    ParsedOrders(intl, used);
    ParsedRanges(intl, used);
    ConsolidationIsInvisible(Candidates(intl, header));
  }

  // ---- what is negotiated ----------------------------------------------------------------

  /** The effective quality the deciding range gives a locale. */
  function EffectiveQuality(deciding: Option<Candidate>): nat {
    match deciding case None => 0 case Some(c) => c.quality
  }

  /** A locale decided by `mine` is rightly chosen over another decided by `theirs`. */
  predicate Beats(locale: Locale, mine: Option<Candidate>, theirs: Option<Candidate>) {
    var quality := EffectiveQuality(mine);
    && quality >= EffectiveQuality(theirs)
    && (quality == 0 ==> locale == DEFAULT)
    && (quality == EffectiveQuality(theirs) > 0 ==>
          mine.value.order < theirs.value.order || (mine.value.order == theirs.value.order && locale == Vietnamese))
  }

  lemma TheScores(candidates: seq<Candidate>, v: Score, e: Score)
    requires v == ScoreOf(candidates, Vietnamese, 0) && e == ScoreOf(candidates, English, 1)
    ensures PositiveScores(candidates, |SUPPORTED|) == Positive(v, e)
  {
    assert PositiveScores(candidates, 0) == [];
    assert PositiveScores(candidates, 1) == if v.quality > 0 then [v] else [];
  }

  function Positive(v: Score, e: Score): seq<Score> {
    (if v.quality > 0 then [v] else []) + (if e.quality > 0 then [e] else [])
  }

  lemma FirstScore(v: Score, e: Score)
    ensures match First(StableSort.Sort(ScoresFirst, Positive(v, e)))
            case None => v.quality == 0 && e.quality == 0
            case Some(x) =>
              && x.quality > 0 && (x == v || x == e)
              && (v.quality > 0 ==> ScoresFirst(x, v)) && (e.quality > 0 ==> ScoresFirst(x, e))
  {
    OrdersAreTotal();
    FirstIsLeast(ScoresFirst, Positive(v, e));
    assert v.quality > 0 ==> Positive(v, e)[0] == v;
    assert e.quality > 0 ==> Positive(v, e)[|Positive(v, e)| - 1] == e;
  }

  lemma TopOfTwo(v: Score, e: Score)
    requires v.locale == Vietnamese && e.locale == English
    ensures if TopLocale(Positive(v, e)) == Vietnamese
            then (v.quality > 0 && (e.quality > 0 ==> ScoresFirst(v, e))) || (v.quality == 0 && e.quality == 0)
            else e.quality > 0 && (v.quality > 0 ==> ScoresFirst(e, v))
  {
    FirstScore(v, e);
  }

  lemma OutcomeBeats(r: Locale, dv: Option<Candidate>, de: Option<Candidate>, v: Score, e: Score)
    requires v == Scored(dv, Vietnamese, 0) && e == Scored(de, English, 1)
    requires if r == Vietnamese
             then (v.quality > 0 && (e.quality > 0 ==> ScoresFirst(v, e))) || (v.quality == 0 && e.quality == 0)
             else e.quality > 0 && (v.quality > 0 ==> ScoresFirst(e, v))
    ensures if r == Vietnamese then Beats(r, dv, de) else Beats(r, de, dv)
  {
  }

  /** The result is the supported locale of greatest effective quality; equal qualities go to the
      one whose deciding range came first, then to the preferred locale; only when no locale has a
      positive quality is it the default. */
  lemma NegotiatedIsBest(candidates: seq<Candidate>, other: Locale)
    requires other != Negotiate(candidates)
    ensures Beats(Negotiate(candidates), Deciding(candidates, Negotiate(candidates)), Deciding(candidates, other))
  {
    var v, e := ScoreOf(candidates, Vietnamese, 0), ScoreOf(candidates, English, 1);
    TheScores(candidates, v, e);
    TopOfTwo(v, e);
    OutcomeBeats(Negotiate(candidates), Deciding(candidates, Vietnamese), Deciding(candidates, English), v, e);
  }

  // ---- what a header says ----------------------------------------------------------------

  function Join(parts: seq<string>, separator: char): string
    requires |parts| >= 1
  {
    if |parts| == 1 then parts[0] else parts[0] + [separator] + Join(parts[1..], separator)
  }

  /** `parts` are the pieces of `s` between the separators. */
  ghost predicate Parts(s: string, separator: char, parts: seq<string>) {
    |parts| >= 1 && Join(parts, separator) == s && forall p :: p in parts ==> separator !in p
  }

  lemma JoinEmptyFirst(rest: seq<string>, separator: char)
    requires |rest| >= 1
    ensures Join([""] + rest, separator) == [separator] + Join(rest, separator)
  {
    assert ([""] + rest)[1..] == rest;
  }

  lemma JoinLongerFirst(c: char, rest: seq<string>, separator: char)
    requires |rest| >= 1
    ensures Join([[c] + rest[0]] + rest[1..], separator) == [c] + Join(rest, separator)
  {
    assert ([[c] + rest[0]] + rest[1..])[1..] == rest[1..];
  }

  lemma {:induction false} SplitParts(s: string, separator: char)
    ensures Parts(s, separator, Split(s, separator))
  {
    if s != "" {
      var rest := Split(s[1..], separator);
      SplitParts(s[1..], separator);
      assert s == [s[0]] + s[1..];
      assert rest[0] in rest && forall p :: p in rest[1..] ==> p in rest;
      JoinEmptyFirst(rest, separator);
      JoinLongerFirst(s[0], rest, separator);
    }
  }

  lemma {:induction false} SplitCounts(s: string, separator: char)
    ensures |Split(s, separator)| == multiset(s)[separator] + 1
  {
    if s != "" {
      SplitCounts(s[1..], separator);
      assert s == [s[0]] + s[1..];
    }
  }

  lemma {:induction false} SplitFirst(p: string, s: string, separator: char)
    requires separator !in p
    ensures Split(p, separator) == [p]
    ensures Split(p + [separator] + s, separator) == [p] + Split(s, separator)
  {
    var whole := p + [separator] + s;
    if p == "" {
      assert whole[1..] == s;
    } else {
      SplitFirst(p[1..], s, separator);
      assert whole[1..] == p[1..] + [separator] + s;
      assert p == [p[0]] + p[1..];
    }
  }

  /** The parts are the only ones. */
  lemma {:induction false} PartsAreSplit(s: string, separator: char, parts: seq<string>)
    requires Parts(s, separator, parts)
    ensures Split(s, separator) == parts
    decreases |parts|
  {
    assert parts[0] in parts;
    if |parts| == 1 {
      SplitFirst(parts[0], "", separator);
    } else {
      var rest := parts[1..];
      assert forall p :: p in rest ==> p in parts;
      PartsAreSplit(Join(rest, separator), separator, rest);
      SplitFirst(parts[0], Join(rest, separator), separator);
      assert parts == [parts[0]] + rest;
    }
  }

  /** The digit at a decimal place, zero where none is written. */
  function Place(d: string, i: nat): nat
    requires Digits(d)
  {
    if i < |d| then Decimal.DigitValue(d[i]) else 0
  }

  /** `0.d1d2d3` weighs 100 d1 + 10 d2 + d3 thousandths, missing digits zero; one, with zeros at
      most, weighs 1000. */
  ghost predicate Weighs(w: string, quality: nat) {
    || (w == "0" && quality == 0)
    || (w == "1" && quality == 1000)
    || (exists d: string :: w == "0." + d && Thousandths(d, quality))
    || (exists d: string :: w == "1." + d && Thousandths(d, 0) && quality == 1000)
  }

  ghost predicate Thousandths(d: string, n: nat) {
    |d| <= 3 && Digits(d) && n == 100 * Place(d, 0) + 10 * Place(d, 1) + Place(d, 2)
  }

  lemma {:induction false} ParseThree(d: string)
    requires |d| == 3 && Digits(d)
    ensures Decimal.Parse(d) == 100 * Place(d, 0) + 10 * Place(d, 1) + Place(d, 2)
  {
    var two, one := d[..2], d[..1];
    assert two[..1] == one && one[..0] == "";
    assert Decimal.Parse(one) == 10 * Decimal.Parse("") + Decimal.DigitValue(d[0]);
    assert Decimal.Parse(two) == 10 * Decimal.Parse(one) + Decimal.DigitValue(d[1]);
  }

  lemma ZeroPlaces(d: string)
    requires Digits(d) && |d| <= 3
    ensures Thousandths(d, 0) <==> forall i :: 0 <= i < |d| ==> d[i] == '0'
  {
  }

  lemma FractionQuality(w: string, d: string)
    requires w == "0." + d && |d| <= 3 && Digits(d)
    ensures QValue(w) == Some(100 * Place(d, 0) + 10 * Place(d, 1) + Place(d, 2))
  {
    var padded := if |d| == 0 then d + "000" else if |d| == 1 then d + "00" else if |d| == 2 then d + "0" else d;
    assert w[2..] == d;
    ParseThree(padded);
  }

  /** A weight is read if and only if it is well formed, as the thousandths it writes. */
  lemma QualityIsWeight(w: string, quality: nat)
    ensures QValue(w) == Some(quality) <==> Weighs(w, quality)
  {
    if 2 <= |w| <= 5 && w[1] == '.' {
      var d := w[2..];
      assert w == [w[0], '.'] + d;
      if w[0] == '0' && Digits(d) {
        FractionQuality(w, d);
      } else if w[0] == '1' && Digits(d) {
        ZeroPlaces(d);
      }
    }
    if d: string :| w == "0." + d && Thousandths(d, quality) {
      FractionQuality(w, d);
    }
    if d: string :| w == "1." + d && Thousandths(d, 0) && quality == 1000 {
      ZeroPlaces(d);
      assert forall i :: 2 <= i < |w| ==> w[i] == d[i - 2];
    }
  }

  ghost predicate QualitySection(section: string, quality: nat) {
    exists w: string :: (section == "q=" + w || section == "Q=" + w) && Weighs(w, quality)
  }

  /** `part` asks for `range`: alone, or with one quality section. */
  ghost predicate Asks(intl: Intl, part: string, range: string, quality: nat) {
    || (Parts(part, ';', [part]) && intl.trim(part) == range && quality == 1000)
    || (exists a: string, b: string ::
          Parts(part, ';', [a, b]) && intl.trim(a) == range && QualitySection(intl.trim(b), quality))
  }

  predicate Speaks(language: string, locale: Locale) {
    (language == "vi" && locale == Vietnamese) || (language == "en" && locale == English)
  }

  /** `range` is a tag of a supported language. */
  predicate Names(intl: Intl, range: string, canonical: string, locale: Locale) {
    var tag := intl.trim(range);
    1 <= |tag| <= 255 && intl.canonicalize(tag) == Some(canonical) && Speaks(intl.language(canonical), locale)
  }

  /** `c` is what the part at place `order` says. */
  ghost predicate Says(intl: Intl, part: string, order: nat, range: string, c: Candidate) {
    && range != "" && Asks(intl, part, range, c.quality) && c.order == order
    && if range == "*" then c.target == Wildcard && c.canonical == "*" && c.specificity == 0
       else && c.target.Explicit? && Names(intl, range, c.canonical, c.target.locale)
            && c.specificity == multiset(c.canonical)['-'] + 1
  }

  lemma SectionQuality(section: string, quality: nat)
    ensures QualityOf(section) == Some(quality) <==> QualitySection(section, quality)
  {
    if |section| >= 3 && section[0] in "qQ" && section[1] == '=' {
      assert section == [section[0], '='] + section[2..];
      QualityIsWeight(section[2..], quality);
    }
    if w: string :| (section == "q=" + w || section == "Q=" + w) && Weighs(w, quality) {
      assert section[2..] == w;
      QualityIsWeight(w, quality);
    }
  }

  /** What the two halves of a part are read as. */
  lemma AsksIsRead(intl: Intl, part: string, range: string, quality: nat)
    ensures Asks(intl, part, range, quality)
            <==> var raw := Split(part, ';');
                 && |raw| <= 2 && intl.trim(raw[0]) == range
                 && (if |raw| == 2 then QualityOf(intl.trim(raw[1])) else Some(1000)) == Some(quality)
  {
    var raw := Split(part, ';');
    SplitParts(part, ';');
    if Parts(part, ';', [part]) {
      PartsAreSplit(part, ';', [part]);
    }
    if a: string, b: string :| Parts(part, ';', [a, b]) && intl.trim(a) == range && QualitySection(intl.trim(b), quality) {
      PartsAreSplit(part, ';', [a, b]);
      SectionQuality(intl.trim(b), quality);
    }
    if |raw| == 1 {
      assert raw == [part];
    } else if |raw| == 2 {
      assert raw == [raw[0], raw[1]];
      SectionQuality(intl.trim(raw[1]), quality);
    }
  }

  lemma NamesIsRead(intl: Intl, range: string, r: CanonicalRange)
    ensures CanonicalSupportedRange(intl, range) == Some(r)
            <==> Names(intl, range, r.canonical, r.locale) && r.specificity == multiset(r.canonical)['-'] + 1
  {
    SplitCounts(r.canonical, '-');
  }

  /** A part gives a candidate if and only if it says it. */
  lemma ParsedIffSaid(intl: Intl, part: string, order: nat, c: Candidate)
    ensures ParseCandidate(intl, part, order) == Some(c) <==> exists range :: Says(intl, part, order, range, c)
  {
    var range := intl.trim(Split(part, ';')[0]);
    AsksIsRead(intl, part, range, c.quality);
    if c.target.Explicit? {
      NamesIsRead(intl, range, CanonicalRange(c.canonical, c.target.locale, c.specificity));
    }
    if ParseCandidate(intl, part, order) == Some(c) {
      assert Says(intl, part, order, range, c);
    }
    if said :| Says(intl, part, order, said, c) {
      AsksIsRead(intl, part, said, c.quality);
    }
  }

  ghost predicate SaidAt(intl: Intl, parts: seq<string>, i: int, c: Candidate) {
    0 <= i < |parts| && exists range :: Says(intl, parts[i], i, range, c)
  }

  lemma {:induction false} ParsedAreSaid(intl: Intl, parts: seq<string>, c: Candidate)
    ensures c in ParseAll(intl, parts) <==> exists i :: SaidAt(intl, parts, i, c)
  {
    if parts != [] {
      var init, last := parts[..|parts| - 1], |parts| - 1;
      ParsedAreSaid(intl, init, c);
      ParsedIffSaid(intl, parts[last], last, c);
      forall i
        ensures SaidAt(intl, parts, i, c)
                <==> SaidAt(intl, init, i, c) || (i == last && ParseCandidate(intl, parts[last], last) == Some(c))
      {
      }
      if c in ParseAll(intl, init) {
        var i :| SaidAt(intl, init, i, c);
        assert SaidAt(intl, parts, i, c);
      }
      assert ParseCandidate(intl, parts[last], last) == Some(c) ==> SaidAt(intl, parts, last, c);
    }
  }

  ghost predicate InOrder(candidates: seq<Candidate>, n: nat) {
    && (forall i :: 0 <= i < |candidates| ==> candidates[i].order < n)
    && (forall i, j :: 0 <= i < j < |candidates| ==> candidates[i].order < candidates[j].order)
  }

  /** The candidates come in the order of their parts. */
  lemma {:induction false} ParsedInOrder(intl: Intl, parts: seq<string>)
    ensures InOrder(ParseAll(intl, parts), |parts|)
  {
    if parts != [] {
      var init := ParseAll(intl, parts[..|parts| - 1]);
      ParsedInOrder(intl, parts[..|parts| - 1]);
      assert InOrder(init, |parts| - 1);
    }
  }

  /** The candidates of a header are what its first 64 parts say, each at its own place: whatever
      the parts are, nothing else is a candidate and nothing said is missed. */
  lemma CandidatesAreSaid(intl: Intl, header: string, parts: seq<string>, c: Candidate)
    requires Parts(header, ',', parts)
    ensures c in Candidates(intl, header) <==> exists i :: i < 64 && SaidAt(intl, parts, i, c)
    ensures InOrder(Candidates(intl, header), |parts|)
  {
    PartsAreSplit(header, ',', parts);
    var used := if |parts| > 64 then parts[..64] else parts;
    ParsedAreSaid(intl, used, c);
    ParsedInOrder(intl, used);
    forall i
      ensures SaidAt(intl, used, i, c) <==> i < 64 && SaidAt(intl, parts, i, c)
    {
    }
  }

  /** Whatever a header says and whatever else it asks for, a locale is decided only by a range of
      its own language or by a wildcard. */
  lemma OnlyItsLanguageDecides(intl: Intl, header: string, locale: Locale)
    ensures match Deciding(Consolidated(Candidates(intl, header)), locale)
            case None => true
            case Some(c) => c.target == Wildcard || Speaks(intl.language(c.canonical), locale)
  {
    var candidates := Candidates(intl, header);
    var deciding := Deciding(Consolidated(candidates), locale);
    if deciding.Some? {
      var c := deciding.value;
      DecidingDecides(Consolidated(candidates), locale);
      ConsolidatedKeepsBest(candidates);
      assert c in candidates;
      SplitParts(header, ',');
      CandidatesAreSaid(intl, header, Split(header, ','), c);
    }
  }

  lemma OnlyCandidate(intl: Intl, header: string, range: string, c: Candidate)
    requires ',' !in header && Says(intl, header, 0, range, c)
    ensures Candidates(intl, header) == [c]
  {
    assert Parts(header, ',', [header]);
    PartsAreSplit(header, ',', [header]);
    ParsedIffSaid(intl, header, 0, c);
    assert ParseAll(intl, [header][..0]) == [];
  }

  lemma NoCandidate(intl: Intl, header: string)
    requires ',' !in header && forall range, c :: !Says(intl, header, 0, range, c)
    ensures Candidates(intl, header) == []
  {
    assert Parts(header, ',', [header]);
    PartsAreSplit(header, ',', [header]);
    var read := ParseCandidate(intl, header, 0);
    if read.Some? {
      ParsedIffSaid(intl, header, 0, read.value);
    }
    assert ParseAll(intl, [header][..0]) == [];
  }

  lemma OneCandidateNegotiates(c: Candidate, locale: Locale)
    requires c.target == Explicit(locale) && c.quality > 0
    ensures Negotiate(Consolidated([c])) == locale
  {
    assert [c][..0] == [] && Consolidated([c]) == [c] && c in [c];
    if Negotiate([c]) != locale {
      NegotiatedIsBest([c], locale);
      DecidingDecides([c], locale);
      DecidingDecides([c], Negotiate([c]));
    }
  }

  /** A header of one range of a supported language, with a quality above zero, negotiates that
      language's locale; the header `en` negotiates English. */
  lemma OneRangeNegotiates(intl: Intl, header: string, range: string, quality: nat, canonical: string, locale: Locale)
    requires 1 <= |header| <= 8192 && ',' !in header
    requires Asks(intl, header, range, quality) && quality > 0
    requires range != "" && range != "*" && Names(intl, range, canonical, locale)
    ensures Negotiated(intl, Some(header)) == locale
  {
    var c := Candidate(canonical, Explicit(locale), quality, 0, multiset(canonical)['-'] + 1);
    assert Says(intl, header, 0, range, c);
    OnlyCandidate(intl, header, range, c);
    OneCandidateNegotiates(c, locale);
  }

  /** A header that says nothing usable, such as one range of another language, one with a malformed
      quality or none at all, negotiates the default. */
  lemma NothingSaidIsDefault(intl: Intl, header: Option<string>)
    requires header.None? || |header.value| == 0 || |header.value| > 8192
             || (',' !in header.value && forall range, c :: !Says(intl, header.value, 0, range, c))
    ensures Negotiated(intl, header) == Vietnamese
  {
    if header.Some? && 0 < |header.value| <= 8192 {
      NoCandidate(intl, header.value);
      NothingScores();
    }
  }

  /** A user's own tag of a supported language overrides every header; any other one is ignored. */
  lemma UserLocaleOverrides(intl: Intl, tag: string, canonical: string, locale: Locale, header: Option<string>)
    ensures Names(intl, tag, canonical, locale) ==> NegotiateLocale(intl, Preferences(Some(tag), header)) == locale
    ensures (forall c, l :: !Names(intl, tag, c, l)) ==>
              NegotiateLocale(intl, Preferences(Some(tag), header)) == NegotiateLocale(intl, Preferences(None, header))
  {
    var read := CanonicalSupportedRange(intl, tag);
    if read.Some? {
      NamesIsRead(intl, tag, read.value);
    }
    NamesIsRead(intl, tag, CanonicalRange(canonical, locale, multiset(canonical)['-'] + 1));
  }

  lemma NothingScores()
    ensures Negotiate(Consolidated([])) == Vietnamese
  {
    if Negotiate([]) != Vietnamese {
      NegotiatedIsBest([], Vietnamese);
      DecidingDecides([], Negotiate([]));
    }
  }
}
