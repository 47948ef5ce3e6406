/** The data-quality guard: evaluating a contract of rules over rows, previewing a repair and
    applying it cell by cell. */
module DataQuality {
  import opened Common
  import Decimal

  /** A JavaScript number; structural equality is `Object.is`, so NaN equals itself and the two
      zeros differ. */
  datatype Number = NaN | NegativeInfinity | PositiveInfinity | NegativeZero | Finite(value: real)

  datatype Scalar = Undefined | Null | Boolean(b: bool) | Numeric(n: Number) | Text(s: string)

  type Row = map<string, Scalar>

  datatype ExpectedType = StringType | NumberType | BooleanType | DateType

  datatype RuleKind =
    | Required
    | Unique
    | Range(min: Option<real>, max: Option<real>)
    | AllowedSet(values: seq<Scalar>)
    | TypeIs(expected: ExpectedType)

  datatype Severity = Info | Warning | Error | Critical

  datatype Rule = Rule(ruleId: string, kind: RuleKind, severity: Severity, field: string, allowNull: bool)

  /** Blank text, date parsing, the look of a date, and the 32-bit fingerprints of a value and, for the dataset version
      at hand, of rule id, row number, field, reason code and value fingerprint. Nothing here takes
      them to be injective. */
  datatype Formats = Formats(
    isBlank: string -> bool,
    parsesAsDate: string -> bool,
    looksLikeDate: string -> bool,
    fingerprint: Scalar -> string,
    stable: (string, nat, string, string, string) -> string)

  datatype ValueKind = Missing | NullKind | BooleanKind | Integer | Fraction | DateKind | TextKind

  datatype Finding = Finding(
    findingId: string,
    ruleId: string,
    reasonCode: string,
    severity: Severity,
    rowNumber: nat,
    field: string,
    value: Scalar,
    valueKind: ValueKind,
    valueFingerprint: string,
    locator: string)

  datatype RuleResult = RuleResult(
    ruleId: string,
    kind: RuleKind,
    passed: bool,
    denominator: nat,
    affectedCount: nat,
    reasonCode: string,
    findingIds: seq<string>)

  datatype Evaluation = Evaluation(
    ruleResults: seq<RuleResult>,
    findings: seq<Finding>,
    passed: bool,
    passedRules: nat,
    failedRules: nat,
    passRate: real)

  /** A contract as it comes in; a part is `None` when its parser rejects it. */
  datatype ContractInput = ContractInput(
    contractId: Option<string>,
    contractVersion: int,
    contractSha256: Option<string>,
    rules: seq<Option<Rule>>)

  /** An evaluation under the contract it was made for. */
  datatype QualityRun = QualityRun(
    contractId: string,
    contractVersion: int,
    contractSha256: string,
    evaluation: Evaluation)

  datatype QualityError = InvalidContract | InvalidRule | DuplicateRuleId | InvalidRepair

  function Get(row: Row, field: string): Scalar {
    if field in row then row[field] else Undefined
  }

  predicate IsNull(value: Scalar) {
    value.Undefined? || value.Null?
  }

  predicate Below(n: Number, bound: real) {
    match n
    case NaN => false
    case NegativeInfinity => true
    case PositiveInfinity => false
    case NegativeZero => 0.0 < bound
    case Finite(v) => v < bound
  }

  predicate Above(n: Number, bound: real) {
    match n
    case NaN => false
    case NegativeInfinity => false
    case PositiveInfinity => true
    case NegativeZero => 0.0 > bound
    case Finite(v) => v > bound
  }

  /** A value on its own breaks the rule; `unique` never looks at a value on its own. */
  predicate ValueBreaks(fmt: Formats, kind: RuleKind, value: Scalar) {
    match kind
    case Required => IsNull(value) || (value.Text? && fmt.isBlank(value.s))
    case Unique => false
    case Range(min, max) =>
      !value.Numeric? || (min.Some? && Below(value.n, min.value)) || (max.Some? && Above(value.n, max.value))
    case AllowedSet(values) => value !in values
    case TypeIs(NumberType) => !value.Numeric?
    case TypeIs(BooleanType) => !value.Boolean?
    case TypeIs(DateType) => !value.Text? || !fmt.parsesAsDate(value.s)
    case TypeIs(StringType) => !value.Text?
  }

  /** Row `i` breaks the rule. */
  predicate Breaks(fmt: Formats, rule: Rule, rows: seq<Row>, i: nat)
    requires i < |rows|
  {
    var value := Get(rows[i], rule.field);
    if rule.kind.Unique? then !IsNull(value) && exists j :: 0 <= j < i && Get(rows[j], rule.field) == value
    else ValueBreaks(fmt, rule.kind, value)
  }

  function ReasonCode(kind: RuleKind): string {
    match kind
    case Required => "DQG_REQUIRED"
    case Unique => "DQG_UNIQUE"
    case Range(_, _) => "DQG_RANGE"
    case AllowedSet(_) => "DQG_ALLOWED-SET"
    case TypeIs(_) => "DQG_TYPE"
  }

  function ValueKindOf(fmt: Formats, value: Scalar): ValueKind {
    match value
    case Undefined => Missing
    case Null => NullKind
    case Boolean(_) => BooleanKind
    case Numeric(NegativeZero) => Integer
    case Numeric(Finite(v)) => if v.Floor as real == v then Integer else Fraction
    case Numeric(_) => Fraction
    case Text(s) => if fmt.looksLikeDate(s) then DateKind else TextKind
  }

  /** The finding of a rule in a row that holds `value`. */
  function FindingOf(fmt: Formats, rule: Rule, rowNumber: nat, value: Scalar): Finding {
    var reasonCode, valueFingerprint := ReasonCode(rule.kind), fmt.fingerprint(value);
    Finding("finding-" + fmt.stable(rule.ruleId, rowNumber, rule.field, reasonCode, valueFingerprint),
            rule.ruleId, reasonCode, rule.severity, rowNumber, rule.field, value, ValueKindOf(fmt, value), valueFingerprint,
            "row:" + Decimal.Render(rowNumber) + ":field:" + rule.field)
  }

  // ---- evaluation ------------------------------------------------------------------------

  /** The findings of one rule in the first `n` rows. */
  function RuleFindings(fmt: Formats, rule: Rule, rows: seq<Row>, n: nat): seq<Finding>
    requires n <= |rows|
  {
    if n == 0 then []
    else
      RuleFindings(fmt, rule, rows, n - 1)
      + if Breaks(fmt, rule, rows, n - 1) then [FindingOf(fmt, rule, n, Get(rows[n - 1], rule.field))] else []
  }

  function AllFindings(fmt: Formats, rules: seq<Rule>, rows: seq<Row>): seq<Finding> {
    if rules == [] then []
    else AllFindings(fmt, rules[..|rules| - 1], rows) + RuleFindings(fmt, rules[|rules| - 1], rows, |rows|)
  }

  function Considered(rule: Rule, rows: seq<Row>): nat {
    if rows == [] then 0
    else
      Considered(rule, rows[..|rows| - 1])
      + if rule.allowNull && IsNull(Get(rows[|rows| - 1], rule.field)) then 0 else 1
  }

  function ResultOf(fmt: Formats, rule: Rule, rows: seq<Row>): RuleResult {
    var found := RuleFindings(fmt, rule, rows, |rows|);
    RuleResult(rule.ruleId, rule.kind, found == [], Considered(rule, rows), |found|,
               if found == [] then "PASS" else ReasonCode(rule.kind), IdsOf(found))
  }

  function IdsOf(found: seq<Finding>): seq<string> {
    seq(|found|, i requires 0 <= i < |found| => found[i].findingId)
  }

  method ConsideredRows(rule: Rule, rows: seq<Row>) returns (n: nat)
    ensures n == Considered(rule, rows)
  {
    n := 0;
    for i := 0 to |rows|
      invariant n == Considered(rule, rows[..i])
    {
      assert rows[..i + 1][..i] == rows[..i];
      if !(rule.allowNull && IsNull(Get(rows[i], rule.field))) {
        n := n + 1;
      }
    }
    assert rows[..|rows|] == rows;
  }

  method EarlierSame(rows: seq<Row>, field: string, i: nat) returns (found: bool)
    requires i < |rows|
    ensures found <==> exists j :: 0 <= j < i && Get(rows[j], field) == Get(rows[i], field)
  {
    for j := 0 to i
      invariant forall k :: 0 <= k < j ==> Get(rows[k], field) != Get(rows[i], field)
    {
      if Get(rows[j], field) == Get(rows[i], field) {
        return true;
      }
    }
    return false;
  }

  lemma AllFindingsSnoc(fmt: Formats, rules: seq<Rule>, rule: Rule, rows: seq<Row>)
    ensures AllFindings(fmt, rules + [rule], rows)
            == AllFindings(fmt, rules, rows) + RuleFindings(fmt, rule, rows, |rows|)
  {
    assert (rules + [rule])[..|rules|] == rules;
  }

  method CheckRuleIds(rules: seq<Rule>) returns (distinct: bool)
    ensures distinct <==> DistinctIds(rules)
  {
    var ids: set<string> := {};
    for i := 0 to |rules|
      invariant forall x :: x in ids <==> exists j :: 0 <= j < i && rules[j].ruleId == x
      invariant DistinctIds(rules[..i])
    {
      if rules[i].ruleId in ids {
        return false;
      }
      ids := ids + {rules[i].ruleId};
    }
    return true;
  }

  const MAX_RULES := 512

  predicate HeaderValid(contract: ContractInput) {
    && contract.contractId.Some? && contract.contractSha256.Some?
    && 1 <= contract.contractVersion <= MAX_SAFE_INTEGER && |contract.rules| <= MAX_RULES
  }

  predicate RulesValid(rules: seq<Option<Rule>>) {
    forall i :: 0 <= i < |rules| ==> rules[i].Some?
  }

  function RulesOf(rules: seq<Option<Rule>>): seq<Rule>
    requires RulesValid(rules)
  {
    seq(|rules|, i requires 0 <= i < |rules| => rules[i].value)
  }

  method NormalizeRules(inputs: seq<Option<Rule>>) returns (rules: Option<seq<Rule>>)
    ensures rules == if RulesValid(inputs) then Some(RulesOf(inputs)) else None
  {
    var normalized: seq<Rule> := [];
    for i := 0 to |inputs|
      invariant RulesValid(inputs[..i]) && normalized == RulesOf(inputs[..i])
    {
      if inputs[i].None? {
        return None;
      }
      assert inputs[..i + 1] == inputs[..i] + [inputs[i]];
      normalized := normalized + [inputs[i].value];
    }
    assert inputs[..|inputs|] == inputs;
    return Some(normalized);
  }

  lemma IdsOfInputs(inputs: seq<Option<Rule>>)
    requires RulesValid(inputs)
    ensures DistinctIds(RulesOf(inputs))
            <==> forall i, j :: 0 <= i < j < |inputs| ==> inputs[i].value.ruleId != inputs[j].value.ruleId
  {
    var rules := RulesOf(inputs);
    if DistinctIds(rules) {
      forall i, j | 0 <= i < j < |inputs|
        ensures inputs[i].value.ruleId != inputs[j].value.ruleId
      {
        assert rules[i].ruleId != rules[j].ruleId;
      }
    }
  }

  /** What an evaluation of normalized rules reports. */
  ghost predicate Reports(fmt: Formats, rows: seq<Row>, rules: seq<Rule>, e: Evaluation) {
    && e.findings == AllFindings(fmt, rules, rows)
    && e.ruleResults == AllResults(fmt, rules, rows)
    && e.failedRules == |FailedAmong(e.ruleResults, |e.ruleResults|)|
    && e.passedRules + e.failedRules == |rules|
    && e.passRate == PassRate(e.passedRules, |rules|)
    && (e.passed <==> e.failedRules == 0)
    && (e.passed <==> Passes(fmt, rules, rows))
  }

  /** Header, rules and rule ids are checked in this order before anything is evaluated; then rule
      after rule, row after row. */
  method EvaluateContract(fmt: Formats, rows: seq<Row>, contract: ContractInput) returns (r: Result<QualityRun, QualityError>)
    ensures r == Rejected(InvalidContract)
            <==> !(contract.contractId.Some? && contract.contractSha256.Some?
                   && 1 <= contract.contractVersion <= 9007199254740991 && |contract.rules| <= 512)
    ensures r == Rejected(InvalidRule)
            <==> HeaderValid(contract) && exists i :: 0 <= i < |contract.rules| && contract.rules[i].None?
    ensures r == Rejected(DuplicateRuleId)
            <==> HeaderValid(contract) && RulesValid(contract.rules)
                 && exists i, j :: 0 <= i < j < |contract.rules| && contract.rules[i].value.ruleId == contract.rules[j].value.ruleId
    ensures r.Accepted? <==>
              HeaderValid(contract) && RulesValid(contract.rules) && DistinctIds(RulesOf(contract.rules))
    ensures r.Accepted? ==>
              && Some(r.value.contractId) == contract.contractId && Some(r.value.contractSha256) == contract.contractSha256
              && r.value.contractVersion == contract.contractVersion
              && Reports(fmt, rows, RulesOf(contract.rules), r.value.evaluation)
  {
    if !HeaderValid(contract) {
      return Rejected(InvalidContract);
    }
    var rules := NormalizeRules(contract.rules);
    if rules.None? {
      return Rejected(InvalidRule);
    }
    var distinct := CheckRuleIds(rules.value);
    IdsOfInputs(contract.rules);
    if !distinct {
      return Rejected(DuplicateRuleId);
    }
    var evaluation := EvaluateNormalized(fmt, rows, rules.value);
    return Accepted(QualityRun(contract.contractId.value, contract.contractVersion, contract.contractSha256.value, evaluation));
  }

  method EvaluateNormalized(fmt: Formats, rows: seq<Row>, rules: seq<Rule>) returns (e: Evaluation)
    ensures Reports(fmt, rows, rules, e)
  {
    var findings, ruleResults := EvaluateRules(fmt, rows, rules);
    var failedRules := CountFailed(ruleResults);
    assert forall i :: 0 <= i < |rules| ==> ruleResults[i] == ResultOf(fmt, rules[i], rows);
    PassesIffNoFindings(fmt, rules, rows);
    var passedRules := |rules| - failedRules;
    var passRate := PassRate(passedRules, |rules|);
    return Evaluation(ruleResults, findings, failedRules == 0, passedRules, failedRules, passRate);
  }

  function AllResults(fmt: Formats, rules: seq<Rule>, rows: seq<Row>): seq<RuleResult> {
    seq(|rules|, i requires 0 <= i < |rules| => ResultOf(fmt, rules[i], rows))
  }

  lemma AllResultsSnoc(fmt: Formats, rules: seq<Rule>, rule: Rule, rows: seq<Row>)
    ensures AllResults(fmt, rules + [rule], rows) == AllResults(fmt, rules, rows) + [ResultOf(fmt, rule, rows)]
  {
  }

  /** The rule loop after `k` rules. */
  ghost predicate Evaluated(fmt: Formats, rules: seq<Rule>, rows: seq<Row>, k: nat, findings: seq<Finding>,
                            ruleResults: seq<RuleResult>)
  {
    k <= |rules| && findings == AllFindings(fmt, rules[..k], rows) && ruleResults == AllResults(fmt, rules[..k], rows)
  }

  lemma EvaluatedNext(fmt: Formats, rules: seq<Rule>, rows: seq<Row>, k: nat, findings: seq<Finding>,
                      ruleResults: seq<RuleResult>)
    requires k < |rules| && Evaluated(fmt, rules, rows, k, findings, ruleResults)
    ensures Evaluated(fmt, rules, rows, k + 1, findings + RuleFindings(fmt, rules[k], rows, |rows|),
                      ruleResults + [ResultOf(fmt, rules[k], rows)])
  {
    assert rules[..k + 1] == rules[..k] + [rules[k]];
    AllFindingsSnoc(fmt, rules[..k], rules[k], rows);
    AllResultsSnoc(fmt, rules[..k], rules[k], rows);
  }

  lemma EvaluatedAll(fmt: Formats, rules: seq<Rule>, rows: seq<Row>, findings: seq<Finding>, ruleResults: seq<RuleResult>)
    requires Evaluated(fmt, rules, rows, |rules|, findings, ruleResults)
    ensures findings == AllFindings(fmt, rules, rows) && ruleResults == AllResults(fmt, rules, rows)
  {
    assert rules[..|rules|] == rules;
  }

  method EvaluateRules(fmt: Formats, rows: seq<Row>, rules: seq<Rule>)
    returns (findings: seq<Finding>, ruleResults: seq<RuleResult>)
    ensures findings == AllFindings(fmt, rules, rows) && ruleResults == AllResults(fmt, rules, rows)
  {
    findings, ruleResults := [], [];
    for k := 0 to |rules|
      invariant Evaluated(fmt, rules, rows, k, findings, ruleResults)
    {
      var found, result := EvaluateRule(fmt, rows, rules[k]);
      EvaluatedNext(fmt, rules, rows, k, findings, ruleResults);
      findings := findings + found;
      ruleResults := ruleResults + [result];
    }
    EvaluatedAll(fmt, rules, rows, findings, ruleResults);
  }

  /** The share of rules that passed; a contract without rules is fully met. */
  function PassRate(passed: nat, total: nat): (rate: real)
    requires passed <= total
    ensures rate * total as real == passed as real
    ensures 0.0 <= rate <= 1.0 && (rate == 1.0 <==> passed == total)
  {
    if total == 0 then 1.0
    else
      QuotientBounds(passed as real / total as real, passed as real, total as real);
      passed as real / total as real
  }

  lemma QuotientBounds(rate: real, a: real, b: real)
    requires b > 0.0 && 0.0 <= a <= b && rate == a / b
    ensures rate * b == a && 0.0 <= rate <= 1.0 && (rate == 1.0 <==> a == b)
  {
    assert rate * b == a;
    assert rate < 0.0 ==> rate * b < 0.0;
    assert rate > 1.0 ==> (rate - 1.0) * b > 0.0;
  }

  /** The places of the failed results among the first `n`. */
  ghost function FailedAmong(results: seq<RuleResult>, n: nat): set<nat>
    requires n <= |results|
  {
    set i: nat | i < n && !results[i].passed
  }

  method CountFailed(results: seq<RuleResult>) returns (failed: nat)
    ensures failed == |FailedAmong(results, |results|)| <= |results|
    ensures failed == 0 <==> forall i :: 0 <= i < |results| ==> results[i].passed
  {
    failed := 0;
    for k := 0 to |results|
      invariant failed == |FailedAmong(results, k)| <= k
      invariant failed == 0 <==> forall i :: 0 <= i < k ==> results[i].passed
    {
      assert FailedAmong(results, k + 1) == FailedAmong(results, k) + if results[k].passed then {} else {k};
      if !results[k].passed {
        failed := failed + 1;
      }
    }
  }

  method EvaluateRule(fmt: Formats, rows: seq<Row>, rule: Rule) returns (found: seq<Finding>, result: RuleResult)
    ensures found == RuleFindings(fmt, rule, rows, |rows|) && result == ResultOf(fmt, rule, rows)
  {
    found := [];
    var findingIds: seq<string> := [];
    for index := 0 to |rows|
      invariant found == RuleFindings(fmt, rule, rows, index)
      invariant findingIds == IdsOf(found)
    {
      var value := Get(rows[index], rule.field);
      var invalid: bool;
      if rule.kind.Unique? {
        var same := EarlierSame(rows, rule.field, index);
        invalid := !IsNull(value) && same;
      } else {
        invalid := ValueBreaks(fmt, rule.kind, value);
      }
      if invalid {
        found := found + [FindingOf(fmt, rule, index + 1, value)];
        findingIds := findingIds + [found[|found| - 1].findingId];
      }
    }
    var denominator := ConsideredRows(rule, rows);
    result := RuleResult(rule.ruleId, rule.kind, |found| == 0, denominator, |found|,
                         if |found| == 0 then "PASS" else ReasonCode(rule.kind), findingIds);
  }

  predicate DistinctIds(rules: seq<Rule>) {
    forall i, j :: 0 <= i < j < |rules| ==> rules[i].ruleId != rules[j].ruleId
  }

  /** No row breaks any rule. */
  ghost predicate Passes(fmt: Formats, rules: seq<Rule>, rows: seq<Row>) {
    forall k, i :: 0 <= k < |rules| && 0 <= i < |rows| ==> !Breaks(fmt, rules[k], rows, i)
  }

  lemma {:induction false} BreaksAreFound(fmt: Formats, rule: Rule, rows: seq<Row>, n: nat)
    requires n <= |rows|
    ensures forall i :: 0 <= i < n && Breaks(fmt, rule, rows, i) ==>
              FindingOf(fmt, rule, i + 1, Get(rows[i], rule.field)) in RuleFindings(fmt, rule, rows, n)
  {
    if n > 0 {
      BreaksAreFound(fmt, rule, rows, n - 1);
    }
  }

  predicate IsBreak(fmt: Formats, rule: Rule, rows: seq<Row>, x: Finding) {
    && 1 <= x.rowNumber <= |rows|
    && Breaks(fmt, rule, rows, x.rowNumber - 1)
    && x == FindingOf(fmt, rule, x.rowNumber, Get(rows[x.rowNumber - 1], rule.field))
  }

  lemma {:induction false} FoundAreBreaks(fmt: Formats, rule: Rule, rows: seq<Row>, n: nat)
    requires n <= |rows|
    ensures forall x :: x in RuleFindings(fmt, rule, rows, n) ==> IsBreak(fmt, rule, rows, x) && x.rowNumber <= n
  {
    if n > 0 {
      FoundAreBreaks(fmt, rule, rows, n - 1);
    }
  }

  /** The findings of a rule are the rows that break it, each with the value it holds. */
  lemma FindingsAreBreaks(fmt: Formats, rule: Rule, rows: seq<Row>)
    ensures forall i :: 0 <= i < |rows| && Breaks(fmt, rule, rows, i) ==>
              FindingOf(fmt, rule, i + 1, Get(rows[i], rule.field)) in RuleFindings(fmt, rule, rows, |rows|)
    ensures forall x :: x in RuleFindings(fmt, rule, rows, |rows|) ==> IsBreak(fmt, rule, rows, x)
  {
    BreaksAreFound(fmt, rule, rows, |rows|);
    FoundAreBreaks(fmt, rule, rows, |rows|);
  }

  lemma PassesIffNoFindings(fmt: Formats, rules: seq<Rule>, rows: seq<Row>)
    ensures Passes(fmt, rules, rows) <==> forall k :: 0 <= k < |rules| ==> ResultOf(fmt, rules[k], rows).passed
  {
    forall k | 0 <= k < |rules|
      ensures ResultOf(fmt, rules[k], rows).passed <==> forall i :: 0 <= i < |rows| ==> !Breaks(fmt, rules[k], rows, i)
    {
      FindingsAreBreaks(fmt, rules[k], rows);
      var found := RuleFindings(fmt, rules[k], rows, |rows|);
      assert found != [] ==> found[0] in found;
    }
  }

  // ---- what breaks a rule, and what a finding says ---------------------------------------

  /** `n` reaches the bound; NaN reaches nothing. */
  predicate AtLeast(n: Number, bound: real) {
    n.PositiveInfinity? || (n.NegativeZero? && bound <= 0.0) || (n.Finite? && bound <= n.value)
  }

  predicate AtMost(n: Number, bound: real) {
    n.NegativeInfinity? || (n.NegativeZero? && 0.0 <= bound) || (n.Finite? && n.value <= bound)
  }

  /** `value` is of the type: a number, NaN included; a truth value; a text; a text that is a date. */
  predicate OfType(fmt: Formats, value: Scalar, expected: ExpectedType) {
    match value
    case Numeric(_) => expected.NumberType?
    case Boolean(_) => expected.BooleanType?
    case Text(s) => expected.StringType? || (expected.DateType? && fmt.parsesAsDate(s))
    case Undefined => false
    case Null => false
  }

  /** Which values break which rule. A required field must hold something that is not blank; a range
      takes the numbers between its bounds, and NaN, and nothing else; an allowed set takes its own
      members; a type takes the values of that type. */
  lemma BreaksByKind(fmt: Formats, kind: RuleKind, value: Scalar)
    ensures kind.Required? ==>
              (ValueBreaks(fmt, kind, value) <==> value in {Undefined, Null} || (value.Text? && fmt.isBlank(value.s)))
    ensures kind.Range? ==>
              (ValueBreaks(fmt, kind, value)
               <==> !(value.Numeric? && (value.n == NaN || ((kind.min.Some? ==> AtLeast(value.n, kind.min.value))
                                                           && (kind.max.Some? ==> AtMost(value.n, kind.max.value))))))
    ensures kind.AllowedSet? ==> (ValueBreaks(fmt, kind, value) <==> forall i :: 0 <= i < |kind.values| ==> kind.values[i] != value)
    ensures kind.TypeIs? ==> (ValueBreaks(fmt, kind, value) <==> !OfType(fmt, value, kind.expected))
  {
  }

  /** Row `i` breaks the unique rule if and only if it holds a value that an earlier row holds, the
      field of a row without it counting as no value. */
  lemma RepetitionBreaks(fmt: Formats, rule: Rule, rows: seq<Row>, i: nat)
    requires i < |rows| && rule.kind.Unique?
    ensures Breaks(fmt, rule, rows, i)
            <==> && rule.field in rows[i] && rows[i][rule.field] !in {Undefined, Null}
                 && exists j :: 0 <= j < i && rule.field in rows[j] && rows[j][rule.field] == rows[i][rule.field]
  {
    forall j | 0 <= j < i
      ensures Get(rows[j], rule.field) == Get(rows[i], rule.field) && !IsNull(Get(rows[i], rule.field))
              ==> rule.field in rows[j]
    {
    }
  }

  predicate Is(v: real, k: int) {
    v == k as real
  }

  ghost predicate Whole(n: Number) {
    n.NegativeZero? || (n.Finite? && exists k :: Is(n.value, k))
  }

  /** The kind a finding reports: what is missing, null, a truth value, a whole or another number,
      and text that looks like a date or does not. */
  lemma ValueKindIs(fmt: Formats, value: Scalar)
    ensures var kind := ValueKindOf(fmt, value);
            && (kind == Missing <==> value == Undefined)
            && (kind == NullKind <==> value == Null)
            && (kind == BooleanKind <==> value.Boolean?)
            && (kind == Integer <==> value.Numeric? && Whole(value.n))
            && (kind == Fraction <==> value.Numeric? && !Whole(value.n))
            && (kind == DateKind <==> value.Text? && fmt.looksLikeDate(value.s))
            && (kind == TextKind <==> value.Text? && !fmt.looksLikeDate(value.s))
  {
    if value.Numeric? && value.n.Finite? {
      var v := value.n.value;
      assert v.Floor as real == v ==> Is(v, v.Floor);
      if k :| Is(v, k) {
        assert v.Floor == k;
      }
    }
  }

  /** The reason of a kind is `DQG_` and its name. */
  function KindName(kind: RuleKind): string {
    match kind
    case Required => "REQUIRED"
    case Unique => "UNIQUE"
    case Range(_, _) => "RANGE"
    case AllowedSet(_) => "ALLOWED-SET"
    case TypeIs(_) => "TYPE"
  }

  /** What a finding of the rule in row `x.rowNumber` must say. */
  ghost predicate Says(fmt: Formats, rule: Rule, rows: seq<Row>, x: Finding)
    requires 1 <= x.rowNumber <= |rows|
  {
    var row := rows[x.rowNumber - 1];
    && x.ruleId == rule.ruleId && x.severity == rule.severity && x.field == rule.field
    && x.reasonCode == "DQG_" + KindName(rule.kind)
    && x.value == (if rule.field in row then row[rule.field] else Undefined)
    && x.valueKind == ValueKindOf(fmt, x.value) && x.valueFingerprint == fmt.fingerprint(x.value)
    && x.locator == "row:" + Decimal.Render(x.rowNumber) + ":field:" + rule.field
    && x.findingId == "finding-" + fmt.stable(x.ruleId, x.rowNumber, x.field, x.reasonCode, x.valueFingerprint)
  }

  lemma FindingSays(fmt: Formats, rule: Rule, rows: seq<Row>, n: nat)
    requires 1 <= n <= |rows|
    ensures var x := FindingOf(fmt, rule, n, Get(rows[n - 1], rule.field)); x.rowNumber == n && Says(fmt, rule, rows, x)
  {
  }

  /** Every finding of a rule names the rule, its reason and severity, and one row: the row's number
      from 1 on, the value in the rule's field there, its kind and its fingerprint. The findings come
      row after row. */
  lemma {:induction false} FindingsSay(fmt: Formats, rule: Rule, rows: seq<Row>, n: nat, i: nat)
    requires n <= |rows| && i < |RuleFindings(fmt, rule, rows, n)|
    ensures var found := RuleFindings(fmt, rule, rows, n);
            && 1 <= found[i].rowNumber <= n && Says(fmt, rule, rows, found[i])
            && (i > 0 ==> found[i - 1].rowNumber < found[i].rowNumber)
  {
    var earlier := RuleFindings(fmt, rule, rows, n - 1);
    if i < |earlier| {
      FindingsSay(fmt, rule, rows, n - 1, i);
    } else {
      FindingSays(fmt, rule, rows, n);
      if i > 0 {
        FindingsSay(fmt, rule, rows, n - 1, i - 1);
      }
    }
  }

  lemma ReasonIs(kind: RuleKind)
    ensures ReasonCode(kind) == "DQG_" + KindName(kind)
  {
  }

  lemma DenominatorIs(rule: Rule, rows: seq<Row>)
    ensures Considered(rule, rows) == if rule.allowNull then NonNull(rows, rule.field, |rows|) else |rows|
  {
    ConsideredCounts(rule, rows, |rows|);
    assert rows[..|rows|] == rows;
  }

  /** A rule's result counts its findings and names them in order; it passed, and says so, if and only
      if there are none. The rows considered are all of them, less the null ones where null is allowed. */
  lemma ResultSays(fmt: Formats, rule: Rule, rows: seq<Row>)
    ensures var r, found := ResultOf(fmt, rule, rows), RuleFindings(fmt, rule, rows, |rows|);
            && r.ruleId == rule.ruleId && r.kind == rule.kind && r.affectedCount == |found| == |r.findingIds|
            && (forall i :: 0 <= i < |found| ==> r.findingIds[i] == found[i].findingId)
            && (r.passed <==> found == [])
            && r.reasonCode == (if r.passed then "PASS" else "DQG_" + KindName(rule.kind))
            && r.denominator == if rule.allowNull then NonNull(rows, rule.field, |rows|) else |rows|
  {
    ReasonIs(rule.kind);
    DenominatorIs(rule, rows);
  }

  lemma {:induction false} ConsideredCounts(rule: Rule, rows: seq<Row>, n: nat)
    requires n <= |rows|
    ensures Considered(rule, rows[..n]) == if rule.allowNull then NonNull(rows, rule.field, n) else n
  {
    if n > 0 {
      ConsideredCounts(rule, rows, n - 1);
      ConsideredSnoc(rule, rows, n - 1);
    }
  }

  // ---- the unique rule counts repetitions ------------------------------------------------

  function NonNull(rows: seq<Row>, field: string, n: nat): nat
    requires n <= |rows|
  {
    if n == 0 then 0 else NonNull(rows, field, n - 1) + if IsNull(Get(rows[n - 1], field)) then 0 else 1
  }

  ghost function DistinctValues(rows: seq<Row>, field: string, n: nat): set<Scalar>
    requires n <= |rows|
  {
    set j | 0 <= j < n && !IsNull(Get(rows[j], field)) :: Get(rows[j], field)
  }

  /** The same set, row by row. */
  ghost function Seen(rows: seq<Row>, field: string, n: nat): set<Scalar>
    requires n <= |rows|
  {
    if n == 0 then {}
    else Seen(rows, field, n - 1) + if IsNull(Get(rows[n - 1], field)) then {} else {Get(rows[n - 1], field)}
  }

  lemma {:induction false} SeenIsDistinct(rows: seq<Row>, field: string, n: nat)
    requires n <= |rows|
    ensures Seen(rows, field, n) == DistinctValues(rows, field, n)
  {
    if n > 0 {
      SeenIsDistinct(rows, field, n - 1);
    }
  }

  lemma BreaksIffSeen(fmt: Formats, rule: Rule, rows: seq<Row>, n: nat)
    requires n < |rows| && rule.kind.Unique?
    ensures Breaks(fmt, rule, rows, n)
            <==> !IsNull(Get(rows[n], rule.field)) && Get(rows[n], rule.field) in Seen(rows, rule.field, n)
  {
    SeenIsDistinct(rows, rule.field, n);
  }

  lemma SeenSnoc(rows: seq<Row>, field: string, n: nat)
    requires n < |rows|
    ensures var value := Get(rows[n], field);
            |Seen(rows, field, n + 1)|
            == |Seen(rows, field, n)| + if IsNull(value) || value in Seen(rows, field, n) then 0 else 1
  {
    var seen, value := Seen(rows, field, n), Get(rows[n], field);
    assert value in seen ==> seen + {value} == seen;
    assert seen + {} == seen;
  }

  /** Rows that hold a value an earlier row holds. */
  ghost function Repetitions(rows: seq<Row>, field: string, n: nat): nat
    requires n <= |rows|
  {
    if n == 0 then 0
    else
      var value := Get(rows[n - 1], field);
      Repetitions(rows, field, n - 1) + if !IsNull(value) && value in Seen(rows, field, n - 1) then 1 else 0
  }

  lemma {:induction false} FoundAreRepetitions(fmt: Formats, rule: Rule, rows: seq<Row>, n: nat)
    requires n <= |rows| && rule.kind.Unique?
    ensures |RuleFindings(fmt, rule, rows, n)| == Repetitions(rows, rule.field, n)
  {
    if n > 0 {
      FoundAreRepetitions(fmt, rule, rows, n - 1);
      BreaksIffSeen(fmt, rule, rows, n - 1);
    }
  }

  lemma {:induction false} RepetitionsCount(rows: seq<Row>, field: string, n: nat)
    requires n <= |rows|
    ensures Repetitions(rows, field, n) == NonNull(rows, field, n) - |Seen(rows, field, n)|
  {
    if n > 0 {
      RepetitionsCount(rows, field, n - 1);
      SeenSnoc(rows, field, n - 1);
    }
  }

  /** The unique rule flags exactly as many rows as there are non-null rows beyond one for each
      distinct non-null value. */
  lemma UniqueFlagsRepetitions(fmt: Formats, rule: Rule, rows: seq<Row>, n: nat)
    requires n <= |rows| && rule.kind.Unique?
    ensures |RuleFindings(fmt, rule, rows, n)| == NonNull(rows, rule.field, n) - |DistinctValues(rows, rule.field, n)|
  {
    FoundAreRepetitions(fmt, rule, rows, n);
    RepetitionsCount(rows, rule.field, n);
    SeenIsDistinct(rows, rule.field, n);
  }

  // ---- affected rows against considered rows ---------------------------------------------

  /** Null rows that break the rule. */
  function NullBreaks(fmt: Formats, rule: Rule, rows: seq<Row>, n: nat): nat
    requires n <= |rows|
  {
    if n == 0 then 0
    else
      NullBreaks(fmt, rule, rows, n - 1)
      + if IsNull(Get(rows[n - 1], rule.field)) && Breaks(fmt, rule, rows, n - 1) then 1 else 0
  }

  /** Other rows that do not. */
  function SoundRows(fmt: Formats, rule: Rule, rows: seq<Row>, n: nat): nat
    requires n <= |rows|
  {
    if n == 0 then 0
    else
      SoundRows(fmt, rule, rows, n - 1)
      + if !IsNull(Get(rows[n - 1], rule.field)) && !Breaks(fmt, rule, rows, n - 1) then 1 else 0
  }

  lemma ConsideredSnoc(rule: Rule, rows: seq<Row>, n: nat)
    requires n < |rows|
    ensures Considered(rule, rows[..n + 1])
            == Considered(rule, rows[..n]) + if rule.allowNull && IsNull(Get(rows[n], rule.field)) then 0 else 1
  {
    assert rows[..n + 1][..n] == rows[..n];
  }

  lemma {:induction false} AffectedAndConsidered(fmt: Formats, rule: Rule, rows: seq<Row>, n: nat)
    requires n <= |rows|
    ensures rule.allowNull ==>
              |RuleFindings(fmt, rule, rows, n)| - NullBreaks(fmt, rule, rows, n)
              == Considered(rule, rows[..n]) - SoundRows(fmt, rule, rows, n)
    ensures !rule.allowNull ==> Considered(rule, rows[..n]) == n && |RuleFindings(fmt, rule, rows, n)| <= n
  {
    if n > 0 {
      AffectedAndConsidered(fmt, rule, rows, n - 1);
      ConsideredSnoc(rule, rows, n - 1);
    }
  }

  /** The affected count stays within the denominator if and only if nulls are counted, or the null
      rows that break the rule are no more than the other rows that do not. */
  lemma AffectedWithinDenominatorIff(fmt: Formats, rule: Rule, rows: seq<Row>)
    ensures ResultOf(fmt, rule, rows).affectedCount <= ResultOf(fmt, rule, rows).denominator
            <==> !rule.allowNull || NullBreaks(fmt, rule, rows, |rows|) <= SoundRows(fmt, rule, rows, |rows|)
  {
    AffectedAndConsidered(fmt, rule, rows, |rows|);
    assert rows[..|rows|] == rows;
  }

  /** A required field that may be null, null in the only row: one row is affected, none counted. */
  lemma NullRowExceedsDenominator(fmt: Formats, rule: Rule, rows: seq<Row>)
    requires rule.kind == Required && rule.allowNull && |rows| == 1 && IsNull(Get(rows[0], rule.field))
    ensures ResultOf(fmt, rule, rows).affectedCount == 1 && ResultOf(fmt, rule, rows).denominator == 0
  {
    assert Breaks(fmt, rule, rows, 0);
    assert RuleFindings(fmt, rule, rows, 0) == [] && |RuleFindings(fmt, rule, rows, 1)| == 1;
    assert rows[..0] == [] && Considered(rule, rows[..0]) == 0;
  }

  // ---- repair ----------------------------------------------------------------------------

  datatype Operation = Operation(rowNumber: int, field: string, replacement: Scalar)

  datatype BeforeAfter = BeforeAfter(rowNumber: int, field: string, before: Scalar, after: Scalar)

  datatype Evidence = Evidence(rowNumber: int, field: string, beforeFingerprint: string, afterFingerprint: string)

  /** The value a preview shows for a cell; a row that is not there shows nothing. */
  function CellOf(rows: seq<Row>, rowNumber: int, field: string): Scalar {
    if 1 <= rowNumber <= |rows| then Get(rows[rowNumber - 1], field) else Undefined
  }

  function Preview(rows: seq<Row>, ops: seq<Operation>): seq<BeforeAfter> {
    seq(|ops|, i requires 0 <= i < |ops| =>
      BeforeAfter(ops[i].rowNumber, ops[i].field, CellOf(rows, ops[i].rowNumber, ops[i].field), ops[i].replacement))
  }

  /** A preview shows, operation by operation, what the named cell holds, nothing for a row or field
      that is not there, and what it is to hold. */
  lemma PreviewShows(rows: seq<Row>, ops: seq<Operation>, i: nat)
    requires i < |ops|
    ensures |Preview(rows, ops)| == |ops|
    ensures var op, n := ops[i], ops[i].rowNumber;
            var there := 1 <= n <= |rows| && op.field in rows[n - 1];
            Preview(rows, ops)[i]
            == BeforeAfter(n, op.field, if there then rows[n - 1][op.field] else Undefined, op.replacement)
  {
  }

  predicate InRange(rows: seq<Row>, ops: seq<Operation>) {
    forall i :: 0 <= i < |ops| ==> 1 <= ops[i].rowNumber <= |rows|
  }

  function Write(rows: seq<Row>, op: Operation): seq<Row>
    requires 1 <= op.rowNumber <= |rows|
  {
    rows[op.rowNumber - 1 := rows[op.rowNumber - 1][op.field := op.replacement]]
  }

  /** One write after the other. */
  function Written(rows: seq<Row>, ops: seq<Operation>): (r: seq<Row>)
    requires InRange(rows, ops)
    ensures |r| == |rows|
  {
    if ops == [] then rows
    else Write(Written(rows, ops[..|ops| - 1]), ops[|ops| - 1])
  }

  /** What applying records: for every operation the cell as the earlier ones left it. */
  function Recorded(fmt: Formats, rows: seq<Row>, ops: seq<Operation>): (r: seq<Evidence>)
    requires InRange(rows, ops)
    ensures |r| == |ops|
  {
    if ops == [] then []
    else
      var init, op := ops[..|ops| - 1], ops[|ops| - 1];
      var before := CellOf(Written(rows, init), op.rowNumber, op.field);
      Recorded(fmt, rows, init)
      + [Evidence(op.rowNumber, op.field, fmt.fingerprint(before), fmt.fingerprint(op.replacement))]
  }

  lemma {:induction false} RecordedAt(fmt: Formats, rows: seq<Row>, ops: seq<Operation>, i: nat)
    requires InRange(rows, ops) && i < |ops|
    ensures Recorded(fmt, rows, ops)[i]
            == var op, before := ops[i], CellOf(Written(rows, ops[..i]), ops[i].rowNumber, ops[i].field);
               Evidence(op.rowNumber, op.field, fmt.fingerprint(before), fmt.fingerprint(op.replacement))
  {
    var init := ops[..|ops| - 1];
    if i < |init| {
      RecordedAt(fmt, rows, init, i);
      assert init[..i] == ops[..i];
    } else {
      assert ops[..i] == init;
    }
  }

  lemma InRangeSnoc(rows: seq<Row>, ops: seq<Operation>, op: Operation)
    ensures InRange(rows, ops + [op]) <==> InRange(rows, ops) && 1 <= op.rowNumber <= |rows|
  {
    var more := ops + [op];
    assert more[|ops|] == op;
    assert forall i :: 0 <= i < |ops| ==> more[i] == ops[i];
  }

  lemma WrittenSnoc(rows: seq<Row>, ops: seq<Operation>, op: Operation)
    requires InRange(rows, ops) && InRange(rows, ops + [op]) && 1 <= op.rowNumber <= |rows|
    ensures Written(rows, ops + [op]) == Write(Written(rows, ops), op)
  {
    var more := ops + [op];
    assert more[..|more| - 1] == ops && more[|more| - 1] == op;
  }

  lemma RecordedSnoc(fmt: Formats, rows: seq<Row>, ops: seq<Operation>, op: Operation)
    requires InRange(rows, ops) && InRange(rows, ops + [op])
    ensures var before := CellOf(Written(rows, ops), op.rowNumber, op.field);
            Recorded(fmt, rows, ops + [op])
            == Recorded(fmt, rows, ops)
               + [Evidence(op.rowNumber, op.field, fmt.fingerprint(before), fmt.fingerprint(op.replacement))]
  {
    assert (ops + [op])[..|ops|] == ops;
  }

  /** The repair loop after `k` operations. */
  ghost predicate Applied(fmt: Formats, rows: seq<Row>, ops: seq<Operation>, k: nat, now: seq<Row>, evidence: seq<Evidence>) {
    && k <= |ops| && InRange(rows, ops[..k])
    && now == Written(rows, ops[..k]) && evidence == Recorded(fmt, rows, ops[..k])
  }

  lemma AppliedNext(fmt: Formats, rows: seq<Row>, ops: seq<Operation>, k: nat, now: seq<Row>, evidence: seq<Evidence>)
    requires k < |ops| && Applied(fmt, rows, ops, k, now, evidence) && 1 <= ops[k].rowNumber <= |rows| == |now|
    ensures var op := ops[k];
            var before := Get(now[op.rowNumber - 1], op.field);
            Applied(fmt, rows, ops, k + 1, Write(now, op),
                    evidence + [Evidence(op.rowNumber, op.field, fmt.fingerprint(before), fmt.fingerprint(op.replacement))])
  {
    assert ops[..k + 1] == ops[..k] + [ops[k]];
    InRangeSnoc(rows, ops[..k], ops[k]);
    WrittenSnoc(rows, ops[..k], ops[k]);
    RecordedSnoc(fmt, rows, ops[..k], ops[k]);
  }

  /** Copies the rows, writes every operation's cell in turn, and records what stood there. The
      source rows are not touched; an operation on a row that is not there fails the repair. */
  method ApplyRepair(fmt: Formats, rows: seq<Row>, ops: seq<Operation>)
    returns (r: Result<(seq<Row>, seq<Evidence>), QualityError>)
    ensures r.Accepted? <==> InRange(rows, ops)
    ensures r.Accepted? ==> r.value == (Written(rows, ops), Recorded(fmt, rows, ops))
    ensures r.Rejected? ==> r.code == InvalidRepair
  {
    var copy := new Row[|rows|](i requires 0 <= i < |rows| => rows[i]);
    var evidence: seq<Evidence> := [];
    for k := 0 to |ops|
      invariant Applied(fmt, rows, ops, k, copy[..], evidence)
    {
      var operation := ops[k];
      if !(1 <= operation.rowNumber <= |rows|) {
        return Rejected(InvalidRepair);
      }
      AppliedNext(fmt, rows, ops, k, copy[..], evidence);
      var target := copy[operation.rowNumber - 1];
      var before := Get(target, operation.field);
      copy[operation.rowNumber - 1] := target[operation.field := operation.replacement];
      evidence := evidence + [Evidence(operation.rowNumber, operation.field, fmt.fingerprint(before),
                                       fmt.fingerprint(operation.replacement))];
    }
    assert ops[..|ops|] == ops;
    return Accepted((copy[..], evidence));
  }

  // ---- apply agrees with preview ---------------------------------------------------------

  predicate OnCell(op: Operation, rowNumber: int, field: string) {
    op.rowNumber == rowNumber && op.field == field
  }

  /** The last replacement for a cell. */
  function LastWrite(ops: seq<Operation>, rowNumber: int, field: string): Option<Scalar> {
    if ops == [] then None
    else if OnCell(ops[|ops| - 1], rowNumber, field) then Some(ops[|ops| - 1].replacement)
    else LastWrite(ops[..|ops| - 1], rowNumber, field)
  }

  ghost function FieldsWritten(ops: seq<Operation>, rowNumber: int): set<string> {
    set i | 0 <= i < |ops| && ops[i].rowNumber == rowNumber :: ops[i].field
  }

  /** All cells of a row replaced at once by their last replacements. */
  ghost function Overlaid(row: Row, ops: seq<Operation>, rowNumber: int): Row {
    map f | f in row.Keys + FieldsWritten(ops, rowNumber) ::
      match LastWrite(ops, rowNumber, f)
      case Some(v) => v
      case None => Get(row, f)
  }

  lemma {:induction false} LastWriteIsSomeOperation(ops: seq<Operation>, rowNumber: int, field: string)
    ensures match LastWrite(ops, rowNumber, field)
            case Some(v) => exists op :: op in ops && OnCell(op, rowNumber, field) && op.replacement == v
            case None => forall op :: op in ops ==> !OnCell(op, rowNumber, field)
    ensures LastWrite(ops, rowNumber, field).Some? <==> field in FieldsWritten(ops, rowNumber)
  {
    if ops != [] {
      var init, last := ops[..|ops| - 1], ops[|ops| - 1];
      LastWriteIsSomeOperation(init, rowNumber, field);
      assert ops == init + [last];
      assert last in ops;
      FieldsOfSnoc(init, last, rowNumber);
    }
  }

  lemma FieldsOfSnoc(ops: seq<Operation>, op: Operation, rowNumber: int)
    ensures FieldsWritten(ops + [op], rowNumber)
            == FieldsWritten(ops, rowNumber) + if op.rowNumber == rowNumber then {op.field} else {}
  {
    var more := ops + [op];
    assert forall i :: 0 <= i < |ops| ==> more[i] == ops[i];
    assert more[|ops|] == op;
    forall f | f in FieldsWritten(ops, rowNumber)
      ensures f in FieldsWritten(more, rowNumber)
    {
      var i :| 0 <= i < |ops| && ops[i].rowNumber == rowNumber && ops[i].field == f;
      assert more[i].field == f;
    }
  }

  lemma OverlaidSnoc(row: Row, ops: seq<Operation>, op: Operation, rowNumber: int)
    ensures Overlaid(row, ops + [op], rowNumber)
            == if op.rowNumber == rowNumber then Overlaid(row, ops, rowNumber)[op.field := op.replacement]
               else Overlaid(row, ops, rowNumber)
  {
    var more := ops + [op];
    assert more[..|ops|] == ops;
    FieldsOfSnoc(ops, op, rowNumber);
    var a := Overlaid(row, more, rowNumber);
    var b := if op.rowNumber == rowNumber then Overlaid(row, ops, rowNumber)[op.field := op.replacement]
             else Overlaid(row, ops, rowNumber);
    assert a.Keys == b.Keys;
    forall f | f in a
      ensures a[f] == b[f]
    {
      assert LastWrite(more, rowNumber, f)
             == if OnCell(op, rowNumber, f) then Some(op.replacement) else LastWrite(ops, rowNumber, f);
    }
  }

  /** Writing in sequence is the simultaneous update by last replacements: the last write to a
      cell wins, every other cell and the number of rows are kept. */
  lemma {:induction false} SequentialIsSimultaneous(rows: seq<Row>, ops: seq<Operation>)
    requires InRange(rows, ops)
    ensures |Written(rows, ops)| == |rows|
    ensures forall i :: 0 <= i < |rows| ==> Written(rows, ops)[i] == Overlaid(rows[i], ops, i + 1)
  {
    if ops == [] {
      forall i | 0 <= i < |rows|
        ensures rows[i] == Overlaid(rows[i], [], i + 1)
      {
        assert FieldsWritten([], i + 1) == {};
        assert Overlaid(rows[i], [], i + 1).Keys == rows[i].Keys;
      }
    } else {
      var init, last := ops[..|ops| - 1], ops[|ops| - 1];
      SequentialIsSimultaneous(rows, init);
      assert ops == init + [last];
      forall i | 0 <= i < |rows|
        ensures Written(rows, ops)[i] == Overlaid(rows[i], ops, i + 1)
      {
        OverlaidSnoc(rows[i], init, last, i + 1);
      }
    }
  }

  /** What a cell holds after the writes. */
  lemma CellAfterWrites(rows: seq<Row>, ops: seq<Operation>, rowNumber: int, field: string)
    requires InRange(rows, ops) && 1 <= rowNumber <= |rows|
    ensures CellOf(Written(rows, ops), rowNumber, field)
            == match LastWrite(ops, rowNumber, field)
               case Some(v) => v
               case None => CellOf(rows, rowNumber, field)
  {
    SequentialIsSimultaneous(rows, ops);
    LastWriteIsSomeOperation(ops, rowNumber, field);
    var row, after := rows[rowNumber - 1], Written(rows, ops)[rowNumber - 1];
    assert after == Overlaid(row, ops, rowNumber);
  }

  ghost predicate DistinctCells(ops: seq<Operation>) {
    forall i, j :: 0 <= i < |ops| && 0 <= j < |ops| && i != j ==> !OnCell(ops[i], ops[j].rowNumber, ops[j].field)
  }

  lemma LastWriteOfDistinct(ops: seq<Operation>, op: Operation)
    requires DistinctCells(ops) && op in ops
    ensures LastWrite(ops, op.rowNumber, op.field) == Some(op.replacement)
  {
    LastWriteIsSomeOperation(ops, op.rowNumber, op.field);
    var w :| w in ops && OnCell(w, op.rowNumber, op.field) && Some(w.replacement) == LastWrite(ops, op.rowNumber, op.field);
    var i :| 0 <= i < |ops| && ops[i] == w;
    var j :| 0 <= j < |ops| && ops[j] == op;
    assert i == j;
  }

  lemma SameWrites(a: seq<Operation>, b: seq<Operation>, rowNumber: int, field: string)
    requires DistinctCells(a) && DistinctCells(b) && (forall op :: op in a <==> op in b)
    ensures LastWrite(a, rowNumber, field) == LastWrite(b, rowNumber, field)
  {
    LastWriteIsSomeOperation(a, rowNumber, field);
    LastWriteIsSomeOperation(b, rowNumber, field);
    if LastWrite(a, rowNumber, field).Some? {
      var op :| op in a && OnCell(op, rowNumber, field) && Some(op.replacement) == LastWrite(a, rowNumber, field);
      LastWriteOfDistinct(b, op);
    }
  }

  lemma SameOverlay(row: Row, a: seq<Operation>, b: seq<Operation>, rowNumber: int)
    requires DistinctCells(a) && DistinctCells(b) && (forall op :: op in a <==> op in b)
    ensures Overlaid(row, a, rowNumber) == Overlaid(row, b, rowNumber)
  {
    forall f: string
      ensures LastWrite(a, rowNumber, f) == LastWrite(b, rowNumber, f)
    {
      SameWrites(a, b, rowNumber, f);
    }
    forall f: string
      ensures f in FieldsWritten(a, rowNumber) <==> f in FieldsWritten(b, rowNumber)
    {
      LastWriteIsSomeOperation(a, rowNumber, f);
      LastWriteIsSomeOperation(b, rowNumber, f);
    }
    assert FieldsWritten(a, rowNumber) == FieldsWritten(b, rowNumber);
  }

  lemma SameOperations(a: seq<Operation>, b: seq<Operation>)
    requires multiset(a) == multiset(b)
    ensures forall op :: op in a <==> op in b
  {
    forall op
      ensures op in a <==> op in b
    {
      assert op in a <==> op in multiset(a);
      assert op in b <==> op in multiset(b);
    }
  }

  lemma RowIgnoresOrder(rows: seq<Row>, a: seq<Operation>, b: seq<Operation>, i: nat)
    requires InRange(rows, a) && InRange(rows, b) && i < |rows|
    requires DistinctCells(a) && DistinctCells(b) && (forall op :: op in a <==> op in b)
    ensures Written(rows, a)[i] == Written(rows, b)[i]
  {
    SequentialIsSimultaneous(rows, a);
    SequentialIsSimultaneous(rows, b);
    SameOverlay(rows[i], a, b, i + 1);
  }

  /** For operations on pairwise distinct cells the order of the operations does not matter. */
  lemma RepairIgnoresOrder(rows: seq<Row>, a: seq<Operation>, b: seq<Operation>)
    requires InRange(rows, a) && InRange(rows, b)
    requires DistinctCells(a) && DistinctCells(b) && multiset(a) == multiset(b)
    ensures Written(rows, a) == Written(rows, b)
  {
    SameOperations(a, b);
    forall i | 0 <= i < |rows|
      ensures Written(rows, a)[i] == Written(rows, b)[i]
    {
      RowIgnoresOrder(rows, a, b, i);
    }
  }

  /** An operation finds in its cell what the preview showed if and only if no earlier operation
      of the proposal left another value there; the recorded evidence fingerprints the previewed
      value if and only if the value left there has the same fingerprint. */
  lemma EvidenceMatchesPreviewIff(fmt: Formats, rows: seq<Row>, ops: seq<Operation>, i: nat)
    requires InRange(rows, ops) && i < |ops|
    ensures var op, shown := ops[i], Preview(rows, ops)[i].before;
            var left := LastWrite(ops[..i], op.rowNumber, op.field);
            && (CellOf(Written(rows, ops[..i]), op.rowNumber, op.field) == shown <==> left in {None, Some(shown)})
            && (Recorded(fmt, rows, ops)[i].beforeFingerprint == fmt.fingerprint(shown)
                <==> left.None? || fmt.fingerprint(left.value) == fmt.fingerprint(shown))
  {
    RecordedAt(fmt, rows, ops, i);
    CellAfterWrites(rows, ops[..i], ops[i].rowNumber, ops[i].field);
  }

  /** Repair agrees with preview: on pairwise distinct cells every cell ends with the previewed
      `after`, and the recorded evidence fingerprints the previewed `before`. */
  lemma RepairAgreesWithPreview(fmt: Formats, rows: seq<Row>, ops: seq<Operation>, i: nat)
    requires InRange(rows, ops) && DistinctCells(ops) && i < |ops|
    ensures var shown, made := Preview(rows, ops)[i], Recorded(fmt, rows, ops)[i];
            && made.rowNumber == shown.rowNumber && made.field == shown.field
            && made.beforeFingerprint == fmt.fingerprint(shown.before)
            && made.afterFingerprint == fmt.fingerprint(shown.after)
            && CellOf(Written(rows, ops), shown.rowNumber, shown.field) == shown.after
  {
    var op := ops[i];
    LastWriteIsSomeOperation(ops[..i], op.rowNumber, op.field);
    forall earlier | earlier in ops[..i]
      ensures !OnCell(earlier, op.rowNumber, op.field)
    {
      var j :| 0 <= j < i && ops[j] == earlier;
      assert !OnCell(ops[j], ops[i].rowNumber, ops[i].field);
    }
    RecordedAt(fmt, rows, ops, i);
    EvidenceMatchesPreviewIff(fmt, rows, ops, i);
    LastWriteOfDistinct(ops, op);
    CellAfterWrites(rows, ops, op.rowNumber, op.field);
  }

  // ---- a repair that covers the findings passes ------------------------------------------

  /** A value no rule on the field objects to. */
  ghost predicate Sound(fmt: Formats, rules: seq<Rule>, field: string, value: Scalar) {
    forall k :: 0 <= k < |rules| && rules[k].field == field ==> !ValueBreaks(fmt, rules[k].kind, value)
  }

  ghost predicate Covers(fmt: Formats, rules: seq<Rule>, rows: seq<Row>, ops: seq<Operation>) {
    forall k, i :: 0 <= k < |rules| && 0 <= i < |rows| && Breaks(fmt, rules[k], rows, i)
      ==> exists op :: op in ops && OnCell(op, i + 1, rules[k].field)
  }

  /** For a contract of rules other than `unique`: when every replacement is sound under all
      rules of its field, re-evaluation passes if and only if every flagged cell was replaced. */
  lemma CoveringRepairPasses(fmt: Formats, rules: seq<Rule>, rows: seq<Row>, ops: seq<Operation>)
    requires InRange(rows, ops)
    requires forall k :: 0 <= k < |rules| ==> !rules[k].kind.Unique?
    requires forall op :: op in ops ==> Sound(fmt, rules, op.field, op.replacement)
    ensures Passes(fmt, rules, Written(rows, ops)) <==> Covers(fmt, rules, rows, ops)
  {
    var after := Written(rows, ops);
    forall k, i | 0 <= k < |rules| && 0 <= i < |rows|
      ensures Breaks(fmt, rules[k], after, i)
              <==> Breaks(fmt, rules[k], rows, i) && !exists op :: op in ops && OnCell(op, i + 1, rules[k].field)
    {
      BreaksAfterRepair(fmt, rules, rows, ops, k, i);
    }
  }

  lemma BreaksAfterRepair(fmt: Formats, rules: seq<Rule>, rows: seq<Row>, ops: seq<Operation>, k: nat, i: nat)
    requires InRange(rows, ops) && k < |rules| && i < |rows| && !rules[k].kind.Unique?
    requires forall op :: op in ops ==> Sound(fmt, rules, op.field, op.replacement)
    ensures Breaks(fmt, rules[k], Written(rows, ops), i)
            <==> Breaks(fmt, rules[k], rows, i) && !exists op :: op in ops && OnCell(op, i + 1, rules[k].field)
  {
    var field := rules[k].field;
    CellAfterWrites(rows, ops, i + 1, field);
    LastWriteIsSomeOperation(ops, i + 1, field);
    if LastWrite(ops, i + 1, field).Some? {
      var op :| op in ops && OnCell(op, i + 1, field) && Some(op.replacement) == LastWrite(ops, i + 1, field);
      assert Sound(fmt, rules, op.field, op.replacement);
    }
  }
}
